/** A pipe as its readers and writers see it (pipe.c): a bounded queue of bytes, and who sleeps on it. Each
    step is one section under the pipe's lock: from its acquire, or from waking up, to its release, or to
    falling asleep. */
module PipeQueue {
  import opened Blocks

  const PIPESIZE: nat := 512

  // `readers` and `writers` sleep on &nread and on &nwrite; `reading` and `writing` are inside piperead
  // and pipewrite, asleep or about to go on. `accepted` and `delivered` are all bytes ever stored and read.
  datatype Pipe = Pipe(queue: seq<Byte>, readopen: bool, writeopen: bool,
                       readers: set<nat>, writers: set<nat>, reading: set<nat>, writing: set<nat>,
                       accepted: seq<Byte>, delivered: seq<Byte>)

  // Write carries the bytes that p has still to write, Read the length asked for, and both what the section
  // finds if it looks whether p was killed. Kill is the part of kill that matters here: it wakes p.
  datatype Step =
    | Write(p: nat, bytes: seq<Byte>, killed: bool)
    | Read(p: nat, n: int, killed: bool)
    | Close(writable: bool)
    | Kill(p: nat)

  function Room(q: Pipe): nat {
    if |q.queue| < PIPESIZE then PIPESIZE - |q.queue| else 0
  }

  function Store(q: Pipe, bytes: seq<Byte>): Pipe {
    q.(queue := q.queue + bytes, accepted := q.accepted + bytes)
  }

  function AfterWrite(q: Pipe, p: nat, bytes: seq<Byte>, killed: bool): Pipe {
    if |bytes| <= Room(q) then Store(q, bytes).(readers := {}, writing := q.writing - {p})
    else
      var full := Store(q, bytes[..Room(q)]);
      if !q.readopen || killed then full.(writing := q.writing - {p})
      else full.(readers := {}, writers := q.writers + {p}, writing := q.writing + {p})
  }

  function Take(q: Pipe, n: int): nat {
    if n < 0 then 0 else if n <= |q.queue| then n else |q.queue|
  }

  function AfterRead(q: Pipe, p: nat, n: int, killed: bool): Pipe {
    if q.queue == [] && q.writeopen then
      if killed then q.(reading := q.reading - {p}) else q.(readers := q.readers + {p}, reading := q.reading + {p})
    else
      var k := Take(q, n);
      q.(queue := q.queue[k..], delivered := q.delivered + q.queue[..k], writers := {}, reading := q.reading - {p})
  }

  function AfterClose(q: Pipe, writable: bool): Pipe {
    if writable then q.(writeopen := false, readers := {}) else q.(readopen := false, writers := {})
  }

  function Do(q: Pipe, s: Step): Pipe {
    match s
    case Write(p, bytes, killed) => AfterWrite(q, p, bytes, killed)
    case Read(p, n, killed) => AfterRead(q, p, n, killed)
    case Close(writable) => AfterClose(q, writable)
    case Kill(p) => q.(readers := q.readers - {p}, writers := q.writers - {p})
  }

  // A process uses an end that is open, and does nothing while it sleeps; an end is closed only when no
  // process is using it.
  predicate Enabled(q: Pipe, s: Step) {
    match s
    case Write(p, _, _) => q.writeopen && p !in q.readers + q.writers
    case Read(p, _, _) => q.readopen && p !in q.readers + q.writers
    case Close(writable) => if writable then q.writing == {} else q.reading == {}
    case Kill(_) => true
  }

  // What was delivered, followed by what is buffered, is what was accepted, and at most PIPESIZE is buffered.
  predicate Fifo(q: Pipe) {
    q.accepted == q.delivered + q.queue && |q.queue| <= PIPESIZE
  }

  predicate Inv(q: Pipe) {
    && Fifo(q)
    && q.readers <= q.reading && q.writers <= q.writing
    && (!q.readopen ==> q.reading == {}) && (!q.writeopen ==> q.writing == {})
    && (q.readers != {} ==> q.queue == [] && q.writeopen)
    && (q.writers != {} ==> |q.queue| == PIPESIZE && q.readopen)
  }

  lemma FifoStep(q: Pipe, s: Step)
    requires Fifo(q)
    ensures Fifo(Do(q, s))
  {
    if s.Read? {
      assert q.queue == q.queue[..Take(q, s.n)] + q.queue[Take(q, s.n)..];
    }
  }

  // A killed writer that finds the pipe full returns without waking the readers.
  predicate Strands(q: Pipe, s: Step) {
    s.Write? && s.killed && q.readers != {} && |s.bytes| > PIPESIZE
  }

  // No wakeup is lost in a step, unless a killed writer brings more than the pipe holds to a sleeping
  // reader; and then one is.
  lemma StepInv(q: Pipe, s: Step)
    requires Inv(q) && Enabled(q, s)
    ensures Inv(Do(q, s)) <==> !Strands(q, s)
  {
    FifoStep(q, s);
  }

  predicate Initial(q: Pipe) {
    q == Pipe([], true, true, {}, {}, {}, {}, [], [])
  }

  ghost predicate IsRun(run: seq<Pipe>, steps: seq<Step>) {
    && |run| == |steps| + 1 && Initial(run[0])
    && (forall i {:trigger steps[i]} :: 0 <= i < |steps| ==>
         Enabled(run[i], steps[i]) && run[i + 1] == Do(run[i], steps[i]))
  }

  predicate NoKills(steps: seq<Step>) {
    forall i :: 0 <= i < |steps| ==> !steps[i].Kill? && !((steps[i].Write? || steps[i].Read?) && steps[i].killed)
  }

  // Every run, in which processes are killed at any time, awake or asleep on the pipe, is first in first
  // out and keeps to the bound.
  lemma {:induction false} RunFifo(run: seq<Pipe>, steps: seq<Step>, n: nat)
    requires IsRun(run, steps) && n < |run|
    ensures Fifo(run[n])
  {
    if n > 0 {
      RunFifo(run, steps, n - 1);
      assert run[n - 1 + 1] == Do(run[n - 1], steps[n - 1]);
      FifoStep(run[n - 1], steps[n - 1]);
    }
  }

  lemma {:induction false} RunInv(run: seq<Pipe>, steps: seq<Step>, n: nat)
    requires IsRun(run, steps) && n < |run| && NoKills(steps)
    ensures Inv(run[n])
  {
    if n > 0 {
      RunInv(run, steps, n - 1);
      assert run[n - 1 + 1] == Do(run[n - 1], steps[n - 1]);
      StepInv(run[n - 1], steps[n - 1]);
    }
  }

  // In runs without kill: a sleeping reader has nothing to read and may yet get something, a sleeping
  // writer has no room and may yet get some, and never do both sleep.
  lemma NoLostWakeup(run: seq<Pipe>, steps: seq<Step>, n: nat)
    requires IsRun(run, steps) && n < |run| && NoKills(steps)
    ensures var q := run[n];
      && (q.readers != {} ==> q.queue == [] && q.writeopen)
      && (q.writers != {} ==> |q.queue| == PIPESIZE && q.readopen)
      && (q.readers == {} || q.writers == {})
  {
    RunInv(run, steps, n);
  }

  // With kill that is false: process 1 sleeps in a read, process 2 is killed and writes one byte more than
  // the pipe holds, and process 1 sleeps on in front of a full pipe.
  lemma KilledWriterStrandsReader(b: Byte) returns (run: seq<Pipe>, steps: seq<Step>)
    ensures IsRun(run, steps) && |steps| == 2
    ensures var q := run[2]; 1 in q.readers && |q.queue| == PIPESIZE && q.readopen
  {
    var q := Pipe([], true, true, {}, {}, {}, {}, [], []);
    var s, t := Read(1, 1, false), Write(2, seq(PIPESIZE + 1, _ => b), true);
    run, steps := [q, Do(q, s), Do(Do(q, s), t)], [s, t];
  }

  // A process killed in its sleep on the pipe goes on, and with its next section is out of the pipe.
  lemma KilledSleeperLeaves(q: Pipe, p: nat, bytes: seq<Byte>, n: int)
    requires Inv(q) && p in q.readers + q.writers
    ensures var k, s := Do(q, Kill(p)), if p in q.readers then Read(p, n, true) else Write(p, bytes, true);
      && Inv(k) && (k.reading == q.reading && k.writing == q.writing && k.queue == q.queue)
      && (p in q.readers ==> q.readopen && Enabled(k, s) && p !in Do(k, s).reading + Do(k, s).readers)
      && (p !in q.readers && q.writeopen ==> Enabled(k, s) && p !in Do(k, s).writing + Do(k, s).writers)
  {
    StepInv(q, Kill(p));
  }

  // A read of positive length that returns 0 found the pipe empty and its write end closed.
  lemma ZeroReadMeansClosed(q: Pipe, p: nat, n: int)
    requires Fifo(q) && Enabled(q, Read(p, n, false)) && n > 0
    ensures var r := Do(q, Read(p, n, false));
      r.delivered == q.delivered && p !in r.readers <==> q.queue == [] && !q.writeopen
  {
    if q.queue != [] { assert |AfterRead(q, p, n, false).delivered| > |q.delivered|; }
  }
}
