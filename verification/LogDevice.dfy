/** The functions of log.c over the state they share: the in-memory header, the reservation count, the
    platter, and the cached blocks that log_write has pinned. */
module LogDevice {
  import opened Blocks
  import opened Log
  import opened LogRuns

  lemma DropOne(dirty: map<nat, Block>, dirty': map<nat, Block>, lh: seq<nat>, tail: nat)
    requires tail < |lh| && dirty' == dirty - {lh[tail]} && forall b :: b in dirty ==> b in lh[tail..]
    ensures forall b :: b in dirty' ==> b in lh[tail + 1..]
  {
    assert lh[tail..] == [lh[tail]] + lh[tail + 1..];
  }

  lemma RemoveAbsent(dirty: map<nat, Block>, b: nat)
    requires b !in dirty
    ensures dirty - {b} == dirty
  {
  }

  lemma WriteOneFacts(g: Geometry, d: Disk, dirty: map<nat, Block>, lh: seq<nat>, tail: nat)
    requires Committable(g, d, dirty, lh) && tail < |lh|
    ensures lh[tail] < |d| && g.start + tail + 1 < |d| && lh[tail] in dirty && g.start + tail + 1 !in dirty
    ensures (forall i :: 0 <= i < |lh| ==> lh[i] in dirty) && |LogWrites(g, dirty, lh)| == |lh|
    ensures LogWrites(g, dirty, lh)[tail] == Write(g.start + 1 + tail, dirty[lh[tail]])
  {
    assert InLog(g, g.start + tail + 1);
  }

  lemma InstallOneFacts(g: Geometry, d: Disk, dirty: map<nat, Block>, lh: seq<nat>, tail: nat)
    requires Recoverable(g, d) && Header(d[g.start]) == lh && tail < |lh|
    requires forall b :: b in dirty ==> b in lh[tail..]
    ensures lh[tail] < |d| && g.start + tail + 1 < |d| && g.start + tail + 1 !in dirty
    ensures g.start + |lh| < |d| && |HomeWrites(g, d, lh)| == |lh|
    ensures HomeWrites(g, d, lh)[tail] == Write(lh[tail], d[g.start + 1 + tail])
  {
    assert InLog(g, g.start + tail + 1);
    assert forall i :: 0 <= i < |lh| ==> !InLog(g, lh[i]);
  }

  lemma LogWritesLength(g: Geometry, dirty: map<nat, Block>, lh: seq<nat>)
    requires forall i :: 0 <= i < |lh| ==> lh[i] in dirty
    ensures |LogWrites(g, dirty, lh)| == |lh|
  {
  }

  lemma Associative(a: seq<Write>, b: seq<Write>, c: seq<Write>)
    ensures a + b + c == a + (b + c)
  {
  }

  lemma IssuedNext(first: seq<Write>, ws: seq<Write>, k: nat)
    requires k < |ws|
    ensures first + ws[..k] + [ws[k]] == first + ws[..k + 1]
  {
  }

  lemma NothingToCommit(g: Geometry, d: Disk, dirty: map<nat, Block>)
    requires Committable(g, d, dirty, [])
    ensures dirty == map[] && CommitWrites(g, d, dirty, []) == [] && Apply(d, []) == d
  {
  }

  lemma DirtyAreLogged(g: Geometry, d: Disk, dirty: map<nat, Block>, lh: seq<nat>)
    requires Committable(g, d, dirty, lh)
    ensures (forall b :: b in dirty ==> b in lh) && (forall i :: 0 <= i < |lh| ==> lh[i] in dirty && lh[i] < UINT)
    ensures |lh| <= LOGSIZE && g.start < |d|
  {
  }

  // Runs start where recovery ends.
  lemma RecoveredIsGood(g: Geometry, d: Disk)
    requires Recoverable(g, d)
    ensures Inv(g, Sys(Recovered(g, d), map[], [], [], [], false, false))
  {
    hide Recovered, Recoverable, EncodeHeader, Word, Apply, RecoverWrites;
    RecoveredAt(g, d);
    assert Inv(g, Down(d)) && Enabled(g, Down(d), Recover);
    assert Inv(g, Do(g, Down(d), Recover));
  }

  lemma LoggingTested(s: Sys, t: Sys, op: nat, b: nat, data: Block)
    requires op < |s.ops| == |s.passed| && t == s.(passed := s.passed[op := true])
    ensures Logging(t, op, b, data) == Logging(s, op, b, data)
  {
  }

  class LogDevice {
    const g: Geometry
    var disk: Disk
    var dirty: map<nat, Block>    // cached blocks with B_DIRTY set; all other reads reach the platter
    var block: array<nat>         // log.lh.block
    var n: nat                    // log.lh.n
    var outstanding: nat
    var committing: bool
    ghost var ops: seq<set<nat>>  // what each outstanding call has logged
    ghost var passed: seq<bool>   // which of them are inside log_write, past its test
    ghost var issued: seq<Write>  // every block write so far

    ghost predicate Valid()
      reads this, block
    {
      && block.Length == LOGSIZE && n <= LOGSIZE
      && outstanding == |ops| == |passed|
    }

    function Lh(): seq<nat>
      requires n <= block.Length
      reads this, block
    {
      block[..n]
    }

    ghost function Running(): Sys
      requires Valid()
      reads this, block
    {
      Sys(disk, dirty, Lh(), ops, passed, committing, false)
    }

    // The memory of a machine that has just been switched on, over the platter it finds.
    constructor (g: Geometry, disk: Disk)
      ensures Valid() && this.g == g && this.disk == disk && dirty == map[] && n == 0
      ensures outstanding == 0 && !committing && issued == [] && fresh(block)
    {
      this.g, this.disk, this.dirty := g, disk, map[];
      block, n, outstanding, committing := new nat[LOGSIZE], 0, 0, false;
      ops, passed, issued := [], [], [];
    }

    // initlog: what a machine does when it is switched on. The header it reads fits in a block, so the
    // first panic is unreachable; start and size come from the superblock.
    static method Initlog(g: Geometry, disk: Disk) returns (log: LogDevice)
      requires Recoverable(g, disk)
      ensures fresh(log) && fresh(log.block) && log.g == g && log.Valid() && log.issued == RecoverWrites(g, disk)
      ensures log.Running() == Sys(Recovered(g, disk), map[], [], [], [], false, false) && Inv(g, log.Running())
    {
      log := new LogDevice(g, disk);
      log.RecoverFromLog();
      RecoveredIsGood(g, disk);
    }

    method Bread(b: nat) returns (data: Block)
      requires b < |disk|
      ensures data == Overlay(disk, dirty)[b]
    {
      data := if b in dirty then dirty[b] else disk[b];
    }

    method Bwrite(b: nat, data: Block)
      requires b < |disk|
      modifies this`disk, this`dirty, this`issued
      ensures disk == Put(old(disk), b, data) && dirty == old(dirty) - {b}
      ensures issued == old(issued) + [Write(b, data)]
    {
      disk := disk[b := data];
      dirty := dirty - {b};
      issued := issued + [Write(b, data)];
    }

    method ReadHead()
      requires Valid() && Recoverable(g, disk) && dirty == map[]
      modifies this`n, block
      ensures Valid() && Lh() == Header(disk[g.start])
    {
      var buf := Bread(g.start);
      n := Word(buf, 0);
      var i := 0;
      while i < n
        invariant 0 <= i <= n == Word(buf, 0)
        invariant forall k :: 0 <= k < i ==> block[k] == Word(buf, 1 + k)
      {
        block[i] := Word(buf, 1 + i);
        i := i + 1;
      }
    }

    method WriteHead()
      requires Valid() && g.start < |disk| && g.start !in dirty
      requires forall i :: 0 <= i < n ==> Lh()[i] < UINT
      modifies this`disk, this`dirty, this`issued
      ensures Valid() && dirty == old(dirty)
      ensures var w := Write(g.start, EncodeHeader(old(disk)[g.start], old(Lh())));
        disk == Put(old(disk), w.blockno, w.data) && issued == old(issued) + [w]
    {
      var buf := Bread(g.start);
      ghost var before := buf;
      buf := PutWord(buf, 0, n);
      var i := 0;
      while i < n
        invariant 0 <= i <= n
        invariant buf == PutEntries(PutWord(before, 0, n), Lh(), i)
      {
        assert block[i] == Lh()[i];
        buf := PutWord(buf, 1 + i, block[i]);
        i := i + 1;
      }
      RemoveAbsent(dirty, g.start);
      Bwrite(g.start, buf);
    }

    // The body of the loop of install_trans: copy the next log block home.
    method InstallOne(tail: nat, ghost d: Disk, ghost lh: seq<nat>, ghost ws: seq<Write>)
      requires Valid() && tail < n && lh == Lh() && Recoverable(g, d) && Header(d[g.start]) == lh
      requires ws == HomeWrites(g, d, lh) && disk == Apply(d, ws[..tail])
      requires forall b :: b in dirty ==> b in lh[tail..]
      modifies this`disk, this`dirty, this`issued
      ensures disk == Apply(d, ws[..tail + 1])
      ensures issued == old(issued) + [ws[tail]]
      ensures forall b :: b in dirty ==> b in lh[tail + 1..]
    {
      hide Recoverable, Header, HomeWrites, Apply;
      InstallOneFacts(g, d, dirty, lh, tail);
      HomeSource(g, d, tail);
      ApplyNext(d, ws, tail);
      var lbuf := Bread(g.start + tail + 1);
      Bwrite(block[tail], lbuf);
      DropOne(old(dirty), dirty, lh, tail);
    }

    method InstallTrans()
      requires Valid() && Recoverable(g, disk) && Header(disk[g.start]) == Lh()
      requires forall b :: b in dirty ==> b in Lh()
      modifies this`disk, this`dirty, this`issued
      ensures Valid() && dirty == map[]
      ensures disk == Apply(old(disk), HomeWrites(g, old(disk), Lh()))
      ensures issued == old(issued) + HomeWrites(g, old(disk), Lh())
    {
      ghost var d, lh, first := disk, Lh(), issued;
      ghost var ws := HomeWrites(g, d, lh);
      hide Apply, Recoverable, HomeWrites, Header;
      assert ws[..0] == [] && first + [] == first && |ws| == n && lh[0..] == lh;
      assert disk == Apply(d, ws[..0]);
      var tail := 0;
      while tail < n
        invariant 0 <= tail <= n
        invariant disk == Apply(d, ws[..tail])
        invariant issued == first + ws[..tail]
        invariant forall b :: b in dirty ==> b in lh[tail..]
      {
        InstallOne(tail, d, lh, ws);
        IssuedNext(first, ws, tail);
        tail := tail + 1;
      }
      assert ws[..n] == ws && lh[n..] == [];
    }

    // What recovery and the end of a commit have in common: install the log, then clear its header.
    method InstallAndClear()
      requires Valid() && Recoverable(g, disk) && Header(disk[g.start]) == Lh()
      requires forall b :: b in dirty ==> b in Lh()
      modifies this`disk, this`dirty, this`issued, this`n
      ensures Valid() && n == 0 && dirty == map[]
      ensures disk == Recovered(g, old(disk))
      ensures issued == old(issued) + RecoverWrites(g, old(disk))
    {
      RecoverEnd(g, disk);
      InstallTrans();
      n := 0;
      WriteHead();
    }

    method RecoverFromLog()
      requires Valid() && Recoverable(g, disk) && dirty == map[] && outstanding == 0 && !committing
      modifies this`disk, this`dirty, this`issued, this`n, block
      ensures Valid() && issued == old(issued) + RecoverWrites(g, old(disk))
      // switched on, the log is where the run machine says it is after recovery
      ensures Running() == Sys(Recovered(g, old(disk)), map[], [], [], [], false, false)
    {
      ReadHead();
      InstallAndClear();
    }

    // The body of the loop of write_log: copy the next cached block to the log.
    method WriteOne(tail: nat, ghost d: Disk, ghost lh: seq<nat>, ghost ws: seq<Write>)
      requires Valid() && tail < n && lh == Lh() && Committable(g, d, dirty, lh)
      requires ws == LogWrites(g, dirty, lh) && disk == Apply(d, ws[..tail])
      modifies this`disk, this`dirty, this`issued
      ensures Valid() && dirty == old(dirty)
      ensures disk == Apply(d, ws[..tail + 1])
      ensures issued == old(issued) + [ws[tail]]
    {
      hide Committable, Recoverable, LogWrites, Apply;
      WriteOneFacts(g, d, dirty, lh, tail);
      var from := Bread(block[tail]);
      ApplyNext(d, ws, tail);
      RemoveAbsent(dirty, g.start + tail + 1);
      Bwrite(g.start + tail + 1, from);
    }

    method WriteLog()
      requires Valid() && Committable(g, disk, dirty, Lh())
      modifies this`disk, this`dirty, this`issued
      ensures Valid() && dirty == old(dirty)
      ensures disk == Apply(old(disk), LogWrites(g, dirty, Lh()))
      ensures issued == old(issued) + LogWrites(g, dirty, Lh())
    {
      ghost var d, lh, first := disk, Lh(), issued;
      ghost var ws := LogWrites(g, dirty, lh);
      hide Committable, Recoverable, LogWrites, Apply;
      assert ws[..0] == [] && first + [] == first && |ws| == n by { LogWritesLength(g, dirty, lh); }
      assert disk == Apply(d, ws[..0]);
      var tail := 0;
      while tail < n
        invariant Valid() && 0 <= tail <= n && dirty == old(dirty)
        invariant disk == Apply(d, ws[..tail])
        invariant issued == first + ws[..tail]
      {
        WriteOne(tail, d, lh, ws);
        IssuedNext(first, ws, tail);
        tail := tail + 1;
      }
      assert ws[..n] == ws;
    }

    // Up to the commit point.
    method WriteLogAndHead()
      requires Valid() && Committable(g, disk, dirty, Lh())
      modifies this`disk, this`dirty, this`issued
      ensures Valid() && dirty == old(dirty) && disk == Logged(g, old(disk), dirty, old(Lh()))
      ensures issued == old(issued)
        + (LogWrites(g, dirty, old(Lh())) + [Write(g.start, EncodeHeader(old(disk)[g.start], old(Lh())))])
    {
      hide Committable, LogWrites, Logged, Apply, EncodeHeader;
      HeadStep(g, disk, dirty, Lh());
      HeadReady(g, disk, dirty, Lh());
      WriteLog();
      WriteHead();
    }

    method Commit()
      requires Valid() && Committable(g, disk, dirty, Lh())
      modifies this`disk, this`dirty, this`issued, this`n
      ensures Valid() && n == 0 && dirty == map[]
      ensures disk == Apply(old(disk), CommitWrites(g, old(disk), old(dirty), old(Lh())))
      ensures issued == old(issued) + CommitWrites(g, old(disk), old(dirty), old(Lh()))
    {
      hide Committable, Recoverable, Loggable, Apply, CommitWrites;
      if n > 0 {
        CommitSome();
      } else {
        NothingToCommit(g, disk, dirty);
      }
    }

    // commit of a transaction that is not empty.
    method CommitSome()
      requires Valid() && n > 0 && Committable(g, disk, dirty, Lh())
      modifies this`disk, this`dirty, this`issued, this`n
      ensures Valid() && n == 0 && dirty == map[]
      ensures disk == Apply(old(disk), CommitWrites(g, old(disk), old(dirty), old(Lh())))
      ensures issued == old(issued) + CommitWrites(g, old(disk), old(dirty), old(Lh()))
    {
      hide Committable, Recoverable, Loggable, Apply, EncodeHeader, LogWrites, CommitWrites, Logged, RecoverWrites,
        Recovered;
      ghost var lh, d, first := Lh(), disk, issued;
      CommitIsRecovery(g, disk, dirty, lh);
      DirtyAreLogged(g, disk, dirty, lh);
      WriteLogAndHead();
      InstallAndClear();
      Associative(first, LogWrites(g, old(dirty), lh) + [Write(g.start, EncodeHeader(d[g.start], lh))],
                  RecoverWrites(g, Logged(g, d, old(dirty), lh)));
    }

    // One turn of the wait loop of begin_op: the call is admitted, or it sleeps.
    method BeginOp() returns (admitted: bool)
      requires Valid() && Inv(g, Running())
      modifies this`outstanding, this`ops, this`passed
      ensures Valid() && admitted == Enabled(g, old(Running()), Begin)
      ensures admitted <==> !old(committing) && old(n) + (old(outstanding) + 1) * 10 <= 30
      ensures admitted ==> outstanding == old(outstanding) + 1 && n == old(n)
      ensures Running() == if admitted then Do(g, old(Running()), Begin) else old(Running())
    {
      hide Inv, Do;
      if committing || n + (outstanding + 1) * MAXOPBLOCKS > LOGSIZE {
        return false;
      }
      BeginFields(g, Running());
      outstanding := outstanding + 1;
      ops, passed := ops + [{}], passed + [false];
      return true;
    }

    // The head of log_write, before it takes log.lock, for the call with index op if there is one:
    // `panicked` is "too big a transaction" or "log_write outside of trans".
    method LogTest(ghost op: nat) returns (panicked: bool)
      requires Valid() && (ops != [] ==> op < |ops|)
      modifies this`passed
      ensures Valid() && panicked == WritePanics(g, old(Running()))
      ensures panicked ==> Running() == old(Running())
      ensures !panicked ==> op < |ops| && Running() == old(Running()).(passed := old(passed)[op := true])
      ensures !panicked && Inv(g, old(Running())) && !old(Running()).down ==>
        Running() == Do(g, old(Running()), Test(op))
    {
      hide Inv, Do;
      if n >= LOGSIZE || n >= g.size - 1 {
        return true;
      }
      if outstanding < 1 {
        return true;
      }
      passed := passed[op := true];
      if Inv(g, old(Running())) {
        TestFields(g, old(Running()), op);
      }
      return false;
    }

    // The rest of log_write, under log.lock: absorbing or appending. Other calls may have come in between
    // since the test; block has room for the entry, though the disk may not.
    method LogAppend(ghost op: nat, b: nat, data: Block)
      requires Valid() && op < |ops| && (n < LOGSIZE || b in Lh())
      modifies this`dirty, this`n, this`ops, this`passed, block
      ensures Valid() && Running() == Logging(old(Running()), op, b, data)
      ensures Inv(g, old(Running())) && WithinBudget(g, old(Running()), op, b) && old(passed)[op] ==>
        Running() == Do(g, old(Running()), Action.LogWrite(op, b, data))
    {
      hide Inv, Do, WithinBudget;
      var i := 0;
      while i < n && block[i] != b
        invariant 0 <= i <= n
        invariant b !in block[..i]
      {
        i := i + 1;
      }
      assert i < n ==> b in Lh();
      ghost var lh := Lh();
      block[i] := b;
      if i == n {
        n := n + 1;
      }
      assert Lh() == Absorb(lh, b);
      dirty := dirty[b := data];
      ops := ops[op := ops[op] + {b}];
      passed := passed[op := false];
      if Inv(g, old(Running())) && WithinBudget(g, old(Running()), op, b) && old(passed)[op] {
        AfterLogWriteFields(g, old(Running()), op, b, data);
      }
    }

    // log_write with nothing in between: the two steps of a run, and no overflow.
    method LogWrite(ghost op: nat, b: nat, data: Block) returns (panicked: bool)
      requires Valid() && (ops != [] ==> op < |ops|)
      modifies this`dirty, this`n, this`ops, this`passed, block
      ensures Valid() && panicked == WritePanics(g, old(Running()))
      ensures panicked ==> Running() == old(Running())
      ensures !panicked ==> op < |ops| && Running() == Logging(old(Running()), op, b, data)
      ensures !panicked && Inv(g, old(Running())) && WithinBudget(g, old(Running()), op, b) ==> Inv(g, Running())
    {
      hide Inv, Do, Logging;
      panicked := LogTest(op);
      if !panicked {
        ghost var s := Running();
        LogAppend(op, b, data);
        LoggingTested(old(Running()), s, op, b, data);
        if Inv(g, old(Running())) && WithinBudget(g, old(Running()), op, b) {
          TestFields(g, old(Running()), op);
        }
      }
    }

    // end_op: the last outstanding call commits.
    method EndOp(ghost op: nat)
      requires Valid() && Inv(g, Running()) && op < |ops|
      modifies this`disk, this`dirty, this`issued, this`n, this`outstanding, this`committing, this`ops, this`passed
      ensures Valid()
      ensures var t := Do(g, old(Running()), End(op));
        Running() == if t.committing then Do(g, t, Action.Commit) else t
      // the last call commits what is logged, the others leave it
      ensures old(outstanding) == 1 ==>
        && disk == Apply(old(disk), CommitWrites(g, old(disk), old(dirty), old(Lh())))
        && issued == old(issued) + CommitWrites(g, old(disk), old(dirty), old(Lh()))
        && n == 0 && dirty == map[] && outstanding == 0 && !committing
      ensures old(outstanding) > 1 ==>
        && disk == old(disk) && dirty == old(dirty) && n == old(n) && issued == old(issued)
        && outstanding == old(outstanding) - 1 && !committing
    {
      NoCommitUnderCall(g, Running(), op);
      EndFields(g, Running(), op);
      hide Inv, Do, CommitWrites, Apply, Committable;
      outstanding := outstanding - 1;
      ops, passed := ops[..op] + ops[op + 1..], passed[..op] + passed[op + 1..];
      if outstanding == 0 {
        committing := true;
        CommitFields(g, Running());
        Commit();
        committing := false;
      }
    }
  }
}
