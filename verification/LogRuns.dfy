/** Whole runs of the logging system: file system calls that overlap, the commit started by the last
    of them, power failures at any point, and recovery. The runs are shown to refine a store whose
    transactions are installed in one step. */
module LogRuns {
  import opened Blocks
  import opened Log

  // The platter and the memory beside it. `ops` holds, for every outstanding call, the block numbers
  // it has logged so far, so `log.outstanding` is |ops|; `passed` says of each whether it is inside
  // log_write, past the test for a full log but not yet past log.lock. `lh` is log.lh, and `dirty` the
  // cached blocks pinned by B_DIRTY. A machine that is down has lost its memory and not recovered yet.
  datatype Sys = Sys(disk: Disk, dirty: map<nat, Block>, lh: seq<nat>, ops: seq<set<nat>>, passed: seq<bool>,
                     committing: bool, down: bool)

  // Reservations not used up: MAXOPBLOCKS for each outstanding call, less what it has logged.
  ghost function Unused(ops: seq<set<nat>>): int {
    if ops == [] then 0 else Unused(ops[..|ops| - 1]) + MAXOPBLOCKS - |ops[|ops| - 1]|
  }

  ghost predicate Inv(g: Geometry, s: Sys) {
    && Recoverable(g, s.disk)
    && (s.down ==> s.ops == [] && s.lh == [] && s.dirty == map[] && !s.committing)
    && (!s.down ==> Committable(g, s.disk, s.dirty, s.lh))
    && (forall i :: 0 <= i < |s.ops| ==> |s.ops[i]| <= MAXOPBLOCKS)
    && (forall i, b :: 0 <= i < |s.ops| && b in s.ops[i] ==> b in s.lh)
    && |s.lh| + Unused(s.ops) <= LOGSIZE
    && (s.committing ==> s.ops == [])
    && |s.passed| == |s.ops| && (true in s.passed ==> g.size > 1)
  }

  // log_write is two steps: it tests for a full log before it takes log.lock, and appends under it. (The
  // test reads lh.n twice; as lh.n only grows while a call is outstanding, one reading stands for both.)
  datatype Action =
    | Begin
    | Test(op: nat)
    | LogWrite(op: nat, b: nat, data: Block)
    | End(op: nat)
    | Commit
    | Crash
    | CrashInCommit(k: nat)
    | Recover
    | CrashInRecover(k: nat)

  // The panic test at the head of `log_write`.
  predicate WritePanics(g: Geometry, s: Sys) {
    |s.lh| >= LOGSIZE || |s.lh| >= g.size - 1 || |s.ops| < 1
  }

  // What a call is allowed to log: a home block, within its budget of distinct blocks.
  predicate WithinBudget(g: Geometry, s: Sys, op: nat, b: nat) {
    && op < |s.ops| && b < |s.disk| && !InLog(g, b)
    && (b in s.ops[op] || |s.ops[op]| < MAXOPBLOCKS)
  }

  ghost predicate Enabled(g: Geometry, s: Sys, a: Action)
    requires Inv(g, s)
  {
    match a
    case Begin => !s.down && !s.committing && |s.lh| + (|s.ops| + 1) * MAXOPBLOCKS <= LOGSIZE
    case Test(op) => !s.down && op < |s.ops| && !WritePanics(g, s)
    case LogWrite(op, b, _) => !s.down && WithinBudget(g, s, op, b) && s.passed[op]
    case End(op) => !s.down && op < |s.ops|
    case Commit => s.committing
    case Crash => !s.down
    case CrashInCommit(k) => s.committing && k <= |CommitWrites(g, s.disk, s.dirty, s.lh)|
    case Recover => s.down
    case CrashInRecover(k) => s.down && k <= |RecoverWrites(g, s.disk)|
  }

  // ---------------------------------------------------------------- reservations

  lemma {:induction false} UnusedConcat(xs: seq<set<nat>>, ys: seq<set<nat>>)
    ensures Unused(xs + ys) == Unused(xs) + Unused(ys)
  {
    if ys == [] {
      assert xs + ys == xs;
    } else {
      UnusedConcat(xs, ys[..|ys| - 1]);
      assert (xs + ys)[..|xs + ys| - 1] == xs + ys[..|ys| - 1];
    }
  }

  lemma {:induction false} UnusedSingle(x: set<nat>)
    ensures Unused([x]) == MAXOPBLOCKS - |x|
  {
    assert [x][..0] == [];
  }

  lemma {:induction false} UnusedBounds(ops: seq<set<nat>>)
    requires forall i :: 0 <= i < |ops| ==> |ops[i]| <= MAXOPBLOCKS
    ensures 0 <= Unused(ops) <= |ops| * MAXOPBLOCKS
  {
    if ops != [] {
      UnusedBounds(ops[..|ops| - 1]);
    }
  }

  lemma UnusedSplit(ops: seq<set<nat>>, i: nat)
    requires i < |ops|
    ensures Unused(ops) == Unused(ops[..i]) + MAXOPBLOCKS - |ops[i]| + Unused(ops[i + 1..])
  {
    assert ops == ops[..i] + ([ops[i]] + ops[i + 1..]);
    UnusedConcat(ops[..i], [ops[i]] + ops[i + 1..]);
    UnusedConcat([ops[i]], ops[i + 1..]);
    UnusedSingle(ops[i]);
  }

  lemma UnusedUpdate(ops: seq<set<nat>>, i: nat, x: set<nat>)
    requires i < |ops|
    ensures Unused(ops[i := x]) == Unused(ops) + |ops[i]| - |x|
  {
    UnusedSplit(ops, i);
    UnusedSplit(ops[i := x], i);
    assert ops[i := x][..i] == ops[..i] && ops[i := x][i + 1..] == ops[i + 1..];
  }

  // ---------------------------------------------------------------- steps

  // begin_op, past its wait loop.
  ghost function AfterBegin(g: Geometry, s: Sys): (t: Sys)
    requires Inv(g, s) && Enabled(g, s, Begin)
    ensures Inv(g, t)
  {
    UnusedConcat(s.ops, [{}]);
    UnusedSingle({});
    UnusedBounds(s.ops);
    s.(ops := s.ops + [{}], passed := s.passed + [false])
  }

  function Absorb(lh: seq<nat>, b: nat): seq<nat> {
    if b in lh then lh else lh + [b]
  }

  // What log_write does past its test, whatever its caller has logged already.
  function Logging(s: Sys, op: nat, b: nat, data: Block): Sys
    requires op < |s.ops| == |s.passed|
  {
    s.(dirty := s.dirty[b := data], lh := Absorb(s.lh, b), ops := s.ops[op := s.ops[op] + {b}],
       passed := s.passed[op := false])
  }

  // The append of a new block to a log whose last block is taken: another call came between the test
  // that allowed it and the append.
  predicate Overflows(g: Geometry, s: Sys, a: Action) {
    a.LogWrite? && a.b !in s.lh && |s.lh| == g.size - 1
  }

  // A log that holds all reservations at once, or no block at all.
  predicate Roomy(g: Geometry) {
    g.size > LOGSIZE || g.size == 1
  }

  ghost function AfterTest(g: Geometry, s: Sys, op: nat): (t: Sys)
    requires Inv(g, s) && Enabled(g, s, Test(op))
    ensures Inv(g, t)
  {
    s.(passed := s.passed[op := true])
  }

  ghost function AfterLogWrite(g: Geometry, s: Sys, op: nat, b: nat, data: Block): (t: Sys)
    requires Inv(g, s) && Enabled(g, s, LogWrite(op, b, data))
    ensures Inv(g, t) <==> !Overflows(g, s, LogWrite(op, b, data))
  {
    UnusedUpdate(s.ops, op, s.ops[op] + {b});
    UnusedBounds(s.ops[op := s.ops[op] + {b}]);
    Logging(s, op, b, data)
  }

  // end_op up to the release of log.lock.
  ghost function AfterEnd(g: Geometry, s: Sys, op: nat): (t: Sys)
    requires Inv(g, s) && Enabled(g, s, End(op))
    ensures Inv(g, t)
  {
    var rest := s.ops[..op] + s.ops[op + 1..];
    UnusedSplit(s.ops, op);
    UnusedConcat(s.ops[..op], s.ops[op + 1..]);
    s.(ops := rest, passed := s.passed[..op] + s.passed[op + 1..], committing := rest == [])
  }

  ghost function AfterCommit(g: Geometry, s: Sys): (t: Sys)
    requires Inv(g, s) && Enabled(g, s, Commit)
    ensures Inv(g, t)
  {
    CommitCompletes(g, s.disk, s.dirty, s.lh);
    Sys(Apply(s.disk, CommitWrites(g, s.disk, s.dirty, s.lh)), map[], [], [], [], false, false)
  }

  // A machine that lost power with this platter.
  function Down(d: Disk): Sys {
    Sys(d, map[], [], [], [], false, true)
  }

  ghost function AfterCrashInCommit(g: Geometry, s: Sys, k: nat): (t: Sys)
    requires Inv(g, s) && Enabled(g, s, CrashInCommit(k))
    ensures Inv(g, t)
  {
    Log.CrashInCommit(g, s.disk, s.dirty, s.lh, k);
    Down(Apply(s.disk, CommitWrites(g, s.disk, s.dirty, s.lh)[..k]))
  }

  ghost function AfterRecover(g: Geometry, d: Disk): (t: Sys)
    requires Recoverable(g, d)
    ensures Inv(g, t)
  {
    RecoveredAt(g, d);
    Sys(Recovered(g, d), map[], [], [], [], false, false)
  }

  ghost function AfterCrashInRecover(g: Geometry, d: Disk, k: nat): (t: Sys)
    requires Recoverable(g, d) && k <= |RecoverWrites(g, d)|
    ensures Inv(g, t)
  {
    CrashInRecovery(g, d, k);
    Down(Apply(d, RecoverWrites(g, d)[..k]))
  }

  ghost function Do(g: Geometry, s: Sys, a: Action): (t: Sys)
    requires Inv(g, s) && Enabled(g, s, a)
    ensures Inv(g, t) <==> !Overflows(g, s, a)
  {
    match a
    case Begin => AfterBegin(g, s)
    case Test(op) => AfterTest(g, s, op)
    case LogWrite(op, b, data) => AfterLogWrite(g, s, op, b, data)
    case End(op) => AfterEnd(g, s, op)
    case Commit => AfterCommit(g, s)
    case Crash => Down(s.disk)
    case CrashInCommit(k) => AfterCrashInCommit(g, s, k)
    case Recover => AfterRecover(g, s.disk)
    case CrashInRecover(k) => AfterCrashInRecover(g, s.disk, k)
  }

  // ---------------------------------------------------------------- refinement

  // The specification: home blocks that survive a crash, and the changes of the open transaction.
  datatype Store = Store(durable: map<nat, Block>, pending: map<nat, Block>)

  function Home(g: Geometry, d: Disk): map<nat, Block> {
    map b: nat | 0 <= b < |d| && !InLog(g, b) :: d[b]
  }

  ghost function Abs(g: Geometry, s: Sys): Store
    requires Inv(g, s)
  {
    Store(Home(g, Recovered(g, s.disk)), s.dirty)
  }

  lemma HomeEqual(g: Geometry, d: Disk, e: Disk)
    requires SameHome(g, d, e)
    ensures Home(g, d) == Home(g, e)
  {
  }

  lemma HomeOverlay(g: Geometry, d: Disk, dirty: map<nat, Block>)
    requires forall b :: b in dirty ==> b < |d| && !InLog(g, b)
    ensures Home(g, Overlay(d, dirty)) == Home(g, d) + dirty
  {
  }

  lemma DirtyAreHome(g: Geometry, d: Disk, dirty: map<nat, Block>, lh: seq<nat>)
    requires Committable(g, d, dirty, lh)
    ensures forall b :: b in dirty ==> b < |d| && !InLog(g, b)
  {
    hide Recoverable;
  }

  // While the machine is up its platter already shows the durable home blocks.
  lemma UpIsDurable(g: Geometry, s: Sys)
    requires Inv(g, s) && !s.down
    ensures Abs(g, s) == Store(Home(g, s.disk), s.dirty)
  {
    hide Apply, Word, EncodeHeader, RecoverWrites, Unused, Recovered;
    RecoveredAt(g, s.disk);
    HomeEqual(g, Recovered(g, s.disk), s.disk);
  }

  lemma CommitAbs(g: Geometry, s: Sys)
    requires Inv(g, s) && s.committing
    ensures Abs(g, Do(g, s, Commit)) == Store(Abs(g, s).durable + s.dirty, map[])
  {
    assert Committable(g, s.disk, s.dirty, s.lh);
    hide Recoverable, Committable, Loggable, Apply, SameHome, CommitWrites, Overlay, Home, Recovered, Word,
      EncodeHeader, RecoverWrites, Unused, Logged;
    var t := Do(g, s, Commit);
    UpIsDurable(g, s);
    UpIsDurable(g, t);
    CommitCompletes(g, s.disk, s.dirty, s.lh);
    HomeEqual(g, t.disk, Overlay(s.disk, s.dirty));
    DirtyAreHome(g, s.disk, s.dirty, s.lh);
    HomeOverlay(g, s.disk, s.dirty);
  }

  lemma CrashAbs(g: Geometry, s: Sys, k: nat)
    requires Inv(g, s) && Enabled(g, s, CrashInCommit(k))
    ensures Abs(g, Do(g, s, CrashInCommit(k)))
         == Store(if k <= |s.lh| then Abs(g, s).durable else Abs(g, s).durable + s.dirty, map[])
  {
    assert Committable(g, s.disk, s.dirty, s.lh) && !s.down;
    hide Inv, InLog, Recoverable, Committable, Loggable, Apply, SameHome, CommitWrites, Overlay, Home, Recovered,
      Word, EncodeHeader, RecoverWrites, Unused, Logged;
    var t := Do(g, s, CrashInCommit(k));
    UpIsDurable(g, s);
    Log.CrashInCommit(g, s.disk, s.dirty, s.lh, k);
    HomeEqual(g, Recovered(g, t.disk), if k <= |s.lh| then s.disk else Overlay(s.disk, s.dirty));
    DirtyAreHome(g, s.disk, s.dirty, s.lh);
    HomeOverlay(g, s.disk, s.dirty);
  }

  lemma RecoverAbs(g: Geometry, s: Sys, a: Action)
    requires Inv(g, s) && Enabled(g, s, a) && (a.Recover? || a.CrashInRecover?)
    ensures Abs(g, Do(g, s, a)) == Abs(g, s)
  {
    hide Recoverable, Committable, Loggable, Apply, SameHome, RecoverWrites, Home, Recovered, Word, EncodeHeader,
      Unused;
    var t := Do(g, s, a);
    match a
    case Recover => UpIsDurable(g, t);
    case CrashInRecover(k) =>
      CrashInRecovery(g, s.disk, k);
      HomeEqual(g, Recovered(g, t.disk), Recovered(g, s.disk));
  }

  // What one action does to the durable home blocks and the open transaction.
  ghost predicate ActionAbs(x: Store, y: Store, a: Action, logged: nat) {
    match a
    case LogWrite(op, b, data) => b in x.durable && y == x.(pending := x.pending[b := data])
    case Commit => y == Store(x.durable + x.pending, map[])
    case Crash => y == Store(x.durable, map[])
    case CrashInCommit(k) => y == Store(if k <= logged then x.durable else x.durable + x.pending, map[])
    case _ => y == x
  }

  lemma StepAbs(g: Geometry, s: Sys, a: Action)
    requires Inv(g, s) && Enabled(g, s, a) && !Overflows(g, s, a)
    ensures ActionAbs(Abs(g, s), Abs(g, Do(g, s, a)), a, |s.lh|)
  {
    hide Apply, Word, EncodeHeader, RecoverWrites, CommitWrites, Unused, Recovered;
    match a
    case Commit => CommitAbs(g, s);
    case CrashInCommit(k) => CrashAbs(g, s, k);
    case Recover => RecoverAbs(g, s, a);
    case CrashInRecover(k) => RecoverAbs(g, s, a);
    case _ => if !s.down { UpIsDurable(g, s); }
  }

  // With room for all reservations the append never overflows, whatever the log held when the test was made.
  lemma RoomyNeverOverflows(g: Geometry, s: Sys, a: Action)
    requires Inv(g, s) && Enabled(g, s, a) && Roomy(g)
    ensures !Overflows(g, s, a)
  {
    if Overflows(g, s, a) && g.size > LOGSIZE {
      FullMeansUsed(s.ops, a.op);
    }
  }

  // A run: it starts in a good state, and each state is left by an enabled action to the next. (The
  // actions are defined on good states; when every state is one is the subject of the lemmas below.)
  ghost predicate IsRun(g: Geometry, run: seq<Sys>, acts: seq<Action>) {
    && |run| == |acts| + 1
    && Inv(g, run[0])
    && (forall i {:trigger acts[i]} :: 0 <= i < |acts| && Inv(g, run[i]) ==>
          Enabled(g, run[i], acts[i]) && run[i + 1] == Do(g, run[i], acts[i]))
  }

  // No append of the run overflows the log.
  ghost predicate Contained(g: Geometry, run: seq<Sys>, acts: seq<Action>)
    requires |run| == |acts| + 1
  {
    forall i :: 0 <= i < |acts| && Inv(g, run[i]) ==> !Overflows(g, run[i], acts[i])
  }

  lemma {:induction false} RunInv(g: Geometry, run: seq<Sys>, acts: seq<Action>, i: nat)
    requires IsRun(g, run, acts) && i < |run| && (Roomy(g) || Contained(g, run, acts))
    ensures Inv(g, run[i])
  {
    if i > 0 {
      RunInv(g, run, acts, i - 1);
      assert run[(i - 1) + 1] == Do(g, run[i - 1], acts[i - 1]);
      if Roomy(g) { RoomyNeverOverflows(g, run[i - 1], acts[i - 1]); }
    }
  }

  // The exact condition: a run keeps the invariant throughout if and only if no append overflows.
  lemma RunInvExactly(g: Geometry, run: seq<Sys>, acts: seq<Action>)
    requires IsRun(g, run, acts)
    ensures (forall i :: 0 <= i < |run| ==> Inv(g, run[i])) <==> Contained(g, run, acts)
    ensures Roomy(g) ==> Contained(g, run, acts)
  {
    hide Inv, Do, Enabled, Overflows;
    if Contained(g, run, acts) {
      forall i | 0 <= i < |run| ensures Inv(g, run[i]) { RunInv(g, run, acts, i); }
    }
    if i :| 0 <= i < |acts| && Inv(g, run[i]) && Overflows(g, run[i], acts[i]) {
      assert run[i + 1] == Do(g, run[i], acts[i]);
      if Roomy(g) { RoomyNeverOverflows(g, run[i], acts[i]); }
    }
  }

  // In every interleaving of calls, the logged blocks and the unused reservations of the outstanding calls
  // fit in the log, no block is logged twice, and nothing is outstanding while a commit is under way.
  lemma ReservationsFit(g: Geometry, run: seq<Sys>, acts: seq<Action>, i: nat)
    requires IsRun(g, run, acts) && i < |run| && (Roomy(g) || Contained(g, run, acts))
    ensures var s := run[i];
      && |s.lh| + Unused(s.ops) <= LOGSIZE
      && (forall j, k :: 0 <= j < k < |s.lh| ==> s.lh[j] != s.lh[k])
      && (s.committing ==> s.ops == [])
      && (forall op :: 0 <= op < |s.ops| ==> |s.ops[op]| <= MAXOPBLOCKS && forall b :: b in s.ops[op] ==> b in s.lh)
  {
    hide Recoverable, Word, Unused;
    RunInv(g, run, acts, i);
  }

  // Durability over whole runs: whatever calls overlap, however often the machine loses power, in
  // commits or in recoveries, the home blocks a recovery would show change only by installing every
  // block of the open transaction in one step. With log.size > LOGSIZE that is every run; with less it
  // is every run in which no append overflows.
  lemma RunsRefineStore(g: Geometry, run: seq<Sys>, acts: seq<Action>)
    requires IsRun(g, run, acts) && (Roomy(g) || Contained(g, run, acts))
    ensures forall i :: 0 <= i < |run| ==> Inv(g, run[i])
    ensures forall i {:trigger acts[i]} :: 0 <= i < |acts| ==>
      ActionAbs(Abs(g, run[i]), Abs(g, run[i + 1]), acts[i], |run[i].lh|)
  {
    forall i | 0 <= i < |run| ensures Inv(g, run[i]) {
      RunInv(g, run, acts, i);
    }
    forall i {:trigger acts[i]} | 0 <= i < |acts|
      ensures ActionAbs(Abs(g, run[i]), Abs(g, run[i + 1]), acts[i], |run[i].lh|)
    {
      RunInvExactly(g, run, acts);
      StepAbs(g, run[i], acts[i]);
    }
  }

  // ---------------------------------------------------------------- progress

  // begin_op admits every call whose reservation still fits, whatever is outstanding and logged already.
  lemma BeginAdmits(g: Geometry, s: Sys) returns (run: seq<Sys>, acts: seq<Action>)
    requires Inv(g, s) && !s.down && !s.committing && |s.lh| + (|s.ops| + 1) * 10 <= 30
    ensures IsRun(g, run, acts) && |acts| == 1 && run[0] == s
    ensures run[1] == s.(ops := s.ops + [{}], passed := s.passed + [false])
  {
    SingleRun(g, s);
    BeginFields(g, s);
    hide Inv, Do;
    run, acts := ExtendRun(g, [s], [], Begin);
  }

  // It admits no other.
  lemma BeginRefuses(g: Geometry, s: Sys, t: Sys)
    requires Inv(g, s) && IsRun(g, [s, t], [Begin])
    ensures !s.down && !s.committing && |s.lh| + (|s.ops| + 1) * 10 <= 30
  {
    assert [Begin][0] == Begin;
  }

  // A call within its budget gets its block into the transaction, unless the log is full when it tests.
  lemma WriteLands(g: Geometry, s: Sys, op: nat, b: nat, data: Block) returns (run: seq<Sys>, acts: seq<Action>)
    requires Inv(g, s) && !s.down && WithinBudget(g, s, op, b) && |s.lh| < LOGSIZE && |s.lh| + 1 < g.size
    ensures IsRun(g, run, acts) && |acts| == 2 && run[0] == s && Inv(g, run[2])
    ensures Abs(g, run[2]) == Abs(g, s).(pending := Abs(g, s).pending[b := data])
    ensures run[2].ops == s.ops[op := s.ops[op] + {b}]
  {
    SingleRun(g, s);
    TestFields(g, s, op);
    var u := Do(g, s, Test(op));
    AfterLogWriteFields(g, u, op, b, data);
    assert !Overflows(g, u, LogWrite(op, b, data)) && Inv(g, Do(g, u, LogWrite(op, b, data)));
    hide Inv, Do;
    run, acts := ExtendRun(g, [s], [], Test(op));
    run, acts := ExtendRun(g, run, acts, LogWrite(op, b, data));
  }

  // The end of the only outstanding call makes the whole transaction durable and leaves an empty log.
  lemma LastEndCommits(g: Geometry, s: Sys) returns (run: seq<Sys>, acts: seq<Action>)
    requires Inv(g, s) && !s.down && |s.ops| == 1
    ensures IsRun(g, run, acts) && acts == [End(0), Action.Commit] && run[0] == s && Inv(g, run[2])
    ensures Abs(g, run[2]) == Store(Abs(g, s).durable + s.dirty, map[])
    ensures run[2].ops == [] && run[2].lh == [] && !run[2].committing && !run[2].down
  {
    hide Inv, Do, Abs, Home, Recovered, CommitWrites, Apply, Committable, Recoverable, IsRun, Unused;
    SingleRun(g, s);
    EndFields(g, s, 0);
    var u := Do(g, s, End(0));
    assert s.ops[..0] + s.ops[1..] == [];
    CommitFields(g, u);
    CommitAbs(g, u);
    UpIsDurable(g, s);
    UpIsDurable(g, u);
    run, acts := ExtendRun(g, [s], [], End(0));
    run, acts := ExtendRun(g, run, acts, Action.Commit);
  }

  lemma EndFields(g: Geometry, s: Sys, op: nat)
    requires Inv(g, s) && Enabled(g, s, End(op))
    ensures var rest, t := s.ops[..op] + s.ops[op + 1..], Do(g, s, End(op));
      && t == s.(ops := rest, passed := s.passed[..op] + s.passed[op + 1..], committing := rest == [])
      && Inv(g, t)
  {
  }

  lemma CommitFields(g: Geometry, s: Sys)
    requires Inv(g, s) && s.committing && !s.down
    ensures Committable(g, s.disk, s.dirty, s.lh) && s.ops == [] && s.passed == []
    ensures Do(g, s, Action.Commit)
         == Sys(Apply(s.disk, CommitWrites(g, s.disk, s.dirty, s.lh)), map[], [], [], [], false, false)
    ensures Inv(g, Do(g, s, Action.Commit))
  {
  }

  // ---------------------------------------------------------------- panics

  // `end_op` never finds a commit under way, and `log_write` never finds itself outside a
  // transaction.
  lemma NoCommitUnderCall(g: Geometry, s: Sys, op: nat)
    requires Inv(g, s) && op < |s.ops|
    ensures !s.committing && !s.down
  {
  }

  lemma {:induction false} FullMeansUsed(ops: seq<set<nat>>, i: nat)
    requires i < |ops| && (forall j :: 0 <= j < |ops| ==> |ops[j]| <= MAXOPBLOCKS)
    requires Unused(ops) <= 0
    ensures |ops[i]| == MAXOPBLOCKS
  {
    UnusedSplit(ops, i);
    UnusedBounds(ops[..i]);
    UnusedBounds(ops[i + 1..]);
  }

  // The array of the log header has room for every call within its budget, even if the disk may not.
  lemma ArrayHasRoom(g: Geometry, s: Sys, op: nat, b: nat)
    requires Inv(g, s) && WithinBudget(g, s, op, b)
    ensures |s.lh| < LOGSIZE || b in s.lh
  {
    if |s.lh| >= LOGSIZE { FullMeansUsed(s.ops, op); }
  }

  // When `log_write` panics, for every call within its budget: exactly when the log is full at the
  // time of the call, the smaller of LOGSIZE and the blocks behind the header. The test is made
  // before absorption, so a full log panics even for a block that is already logged.
  lemma PanicsExactlyWhenFull(g: Geometry, s: Sys, op: nat, b: nat)
    requires Inv(g, s) && WithinBudget(g, s, op, b)
    ensures WritePanics(g, s) <==> |s.lh| == (if g.size - 1 < LOGSIZE then g.size - 1 else LOGSIZE)
    // With log.size > LOGSIZE a panic hits only a block this call has logged before, at a moment
    // when every outstanding call has used its whole reservation.
    ensures WritePanics(g, s) && g.size > LOGSIZE ==>
      b in s.ops[op] && forall i :: 0 <= i < |s.ops| ==> |s.ops[i]| == MAXOPBLOCKS
  {
    UnusedBounds(s.ops);
    if WritePanics(g, s) && g.size > LOGSIZE {
      forall i | 0 <= i < |s.ops| ensures |s.ops[i]| == MAXOPBLOCKS {
        FullMeansUsed(s.ops, i);
      }
    }
  }

  // The run that fills the log: three calls, which log the m blocks from `first` on in turn.
  ghost predicate Fillable(g: Geometry, s: Sys, first: nat) {
    && Inv(g, s) && !s.down && s.lh == [] && s.ops == [] && !s.committing
    && (forall j :: first <= j < first + LOGSIZE ==> j < |s.disk| && !InLog(g, j))
  }

  // A machine that has just recovered with an empty log can run it, given LOGSIZE blocks behind the log.
  lemma FreshIsFillable(g: Geometry, d: Disk, first: nat)
    requires 0 < g.size && g.start + g.size <= first && first + LOGSIZE <= |d| < UINT && d[g.start] == ZeroBlock()
    ensures Fillable(g, Sys(d, map[], [], [], [], false, false), first)
  {
    ZeroWords(0);
    assert Header(d[g.start]) == [];
  }

  function FilledLog(first: nat, m: nat): seq<nat> {
    seq(m, j requires 0 <= j < m => first + j)
  }

  function Turn(m: nat): nat { m % 3 }

  // What call i logs: every third block.
  function FilledOp(first: nat, m: nat, i: nat): (r: set<nat>)
    ensures forall x :: x in r ==> first <= x < first + m
  {
    if m == 0 then {}
    else if Turn(m - 1) == i then FilledOp(first, m - 1, i) + {first + m - 1}
    else FilledOp(first, m - 1, i)
  }

  function FilledOps(first: nat, m: nat): seq<set<nat>> {
    [FilledOp(first, m, 0), FilledOp(first, m, 1), FilledOp(first, m, 2)]
  }

  // The state m writes into that run.
  ghost predicate Filled(g: Geometry, s: Sys, t: Sys, first: nat, m: nat) {
    && Inv(g, t) && !t.down && !t.committing && t.disk == s.disk
    && t.lh == FilledLog(first, m) && t.ops == FilledOps(first, m) && t.passed == [false, false, false]
  }

  lemma FilledLogNext(first: nat, m: nat)
    ensures Absorb(FilledLog(first, m), first + m) == FilledLog(first, m + 1)
  {
  }

  function Share(m: nat, i: nat): nat
    requires i < 3
  {
    (m + 2 - i) / 3
  }

  lemma ShareNext(m: nat, i: nat)
    requires i < 3
    ensures Share(m + 1, i) == Share(m, i) + if Turn(m) == i then 1 else 0
  {
  }

  lemma {:induction false} FilledOpSize(first: nat, m: nat, i: nat)
    requires i < 3
    ensures |FilledOp(first, m, i)| == Share(m, i)
  {
    hide Share, Turn;
    if m == 0 {
      NoShare(i);
    } else {
      FilledOpSize(first, m - 1, i);
      ShareNext(m - 1, i);
    }
  }

  lemma NoShare(i: nat)
    requires i < 3
    ensures Share(0, i) == 0
  {
  }

  lemma FilledOpNext(first: nat, m: nat, i: nat)
    ensures FilledOp(first, m + 1, i) == if Turn(m) == i then FilledOp(first, m,
      i) + {first + m} else FilledOp(first, m, i)
  {
  }

  lemma FilledOpsNext(first: nat, m: nat)
    requires m < LOGSIZE
    ensures |FilledOp(first, m, Turn(m))| < MAXOPBLOCKS
    ensures FilledOps(first, m)[Turn(m) := FilledOp(first, m, Turn(m)) + {first + m}] == FilledOps(first, m + 1)
  {
    FilledOpSize(first, m, Turn(m));
    hide FilledOp;
    FilledOpNext(first, m, 0);
    FilledOpNext(first, m, 1);
    FilledOpNext(first, m, 2);
  }

  function FillWrite(first: nat, m: nat): Action {
    LogWrite(Turn(m), first + m, ZeroBlock())
  }

  lemma FillEnabled(g: Geometry, s: Sys, t: Sys, first: nat, m: nat)
    requires Fillable(g, s, first) && Filled(g, s, t, first, m) && m < LOGSIZE && m + 1 < g.size
    ensures Enabled(g, t, Test(Turn(m)))
    ensures var u := Do(g, t, Test(Turn(m)));
      Enabled(g, u, FillWrite(first, m)) && !Overflows(g, u, FillWrite(first, m))
  {
    assert !InLog(g, first + m) && first + m < |t.disk|;
    FilledOpsNext(first, m);
  }

  lemma FillNext(g: Geometry, s: Sys, t: Sys, u: Sys, first: nat, m: nat)
    requires Filled(g, s, t, first, m) && m < LOGSIZE && Inv(g, u)
    requires u == Logging(t.(passed := t.passed[Turn(m) := true]), Turn(m), first + m, ZeroBlock())
    ensures Filled(g, s, u, first, m + 1)
  {
    FilledLogNext(first, m);
    FilledOpsNext(first, m);
  }

  lemma AfterLogWriteFields(g: Geometry, s: Sys, op: nat, b: nat, data: Block)
    requires Inv(g, s) && Enabled(g, s, LogWrite(op, b, data))
    ensures Do(g, s, LogWrite(op, b, data)) == Logging(s, op, b, data)
  {
  }

  lemma SingleRun(g: Geometry, s: Sys)
    requires Inv(g, s)
    ensures IsRun(g, [s], [])
  {
  }

  lemma BeginFields(g: Geometry, s: Sys)
    requires Inv(g, s) && Enabled(g, s, Begin)
    ensures Do(g, s, Begin) == s.(ops := s.ops + [{}], passed := s.passed + [false]) && Inv(g, Do(g, s, Begin))
  {
  }

  // i of the three calls have begun.
  ghost predicate Begun(g: Geometry, s: Sys, t: Sys, i: nat) {
    Inv(g, t) && t == s.(ops := seq(i, _ => {}), passed := seq(i, _ => false))
  }

  lemma BeginAgain(g: Geometry, s: Sys, t: Sys, first: nat, i: nat)
    requires Fillable(g, s, first) && Begun(g, s, t, i) && i < 3
    ensures Inv(g, t) && Enabled(g, t, Begin) && Begun(g, s, Do(g, t, Begin), i + 1)
  {
    BeginFields(g, t);
  }

  lemma AllBegun(g: Geometry, s: Sys, t: Sys, first: nat)
    requires Fillable(g, s, first) && Begun(g, s, t, 3)
    ensures Filled(g, s, t, first, 0)
  {
    assert FilledOps(first, 0) == [{}, {}, {}];
    assert FilledLog(first, 0) == [];
  }

  lemma NoneBegun(g: Geometry, s: Sys, first: nat)
    requires Fillable(g, s, first)
    ensures Inv(g, s) && Begun(g, s, s, 0)
  {
  }

  lemma FillStart(g: Geometry, s: Sys, first: nat) returns (run: seq<Sys>, acts: seq<Action>)
    requires Fillable(g, s, first)
    ensures |run| == |acts| + 1 && IsRun(g, run, acts) && run[0] == s && Filled(g, s, run[|acts|], first, 0)
  {
    hide Inv, Do, Enabled, IsRun, Filled, Fillable, Begun;
    NoneBegun(g, s, first);
    SingleRun(g, s);
    run, acts := [s], [];
    for i := 0 to 3
      invariant |run| == |acts| + 1 && IsRun(g, run, acts) && run[0] == s && Begun(g, s, run[|acts|], i)
    {
      BeginAgain(g, s, run[|acts|], first, i);
      run, acts := ExtendRun(g, run, acts, Begin);
    }
    AllBegun(g, s, run[|acts|], first);
  }

  lemma FilledInv(g: Geometry, s: Sys, t: Sys, first: nat, m: nat)
    requires Filled(g, s, t, first, m)
    ensures Inv(g, t)
  {
  }

  lemma {:induction false} FillLog(g: Geometry, s: Sys, first: nat, m: nat) returns (run: seq<Sys>, acts: seq<Action>)
    requires Fillable(g, s, first) && m <= LOGSIZE && m < g.size
    ensures |run| == |acts| + 1 && IsRun(g, run, acts) && run[0] == s && Filled(g, s, run[|acts|], first, m)
  {
    hide Inv, IsRun, Filled, Fillable, Enabled, Do, FilledLog, FilledOps, Turn, Absorb, Overflows, Logging;
    if m == 0 {
      run, acts := FillStart(g, s, first);
    } else {
      run, acts := FillLog(g, s, first, m - 1);
      var t, op := run[|acts|], Turn(m - 1);
      assert Inv(g, t) by { FilledInv(g, s, t, first, m - 1); }
      FillEnabled(g, s, t, first, m - 1);
      TestFields(g, t, op);
      run, acts := ExtendRun(g, run, acts, Test(op));
      AfterLogWriteFields(g, run[|acts|], op, first + m - 1, ZeroBlock());
      FillNext(g, s, t, Do(g, run[|acts|], FillWrite(first, m - 1)), first, m - 1);
      run, acts := ExtendRun(g, run, acts, FillWrite(first, m - 1));
    }
  }

  lemma TestFields(g: Geometry, s: Sys, op: nat)
    requires Inv(g, s) && Enabled(g, s, Test(op))
    ensures Do(g, s, Test(op)) == s.(passed := s.passed[op := true]) && Inv(g, Do(g, s, Test(op)))
  {
  }

  lemma ExtendRun(g: Geometry, run: seq<Sys>, acts: seq<Action>, a: Action) returns (run': seq<Sys>, acts': seq<Action>)
    requires IsRun(g, run, acts) && Inv(g, run[|acts|]) && Enabled(g, run[|acts|], a)
    ensures |run'| == |acts'| + 1 && IsRun(g, run', acts') && run'[0] == run[0] && |acts'| == |acts| + 1
    ensures run' == run + [Do(g, run[|acts|], a)] && acts' == acts + [a]
  {
    hide Inv, Enabled, Do;
    run', acts' := run + [Do(g, run[|acts|], a)], acts + [a];
    forall i {:trigger acts'[i]} | 0 <= i < |acts'| && Inv(g, run'[i])
      ensures Enabled(g, run'[i], acts'[i]) && run'[i + 1] == Do(g, run'[i], acts'[i])
    {
      if i < |acts| { assert acts'[i] == acts[i]; }
    }
  }

  // "No panic in log_write is reachable" is false: three calls log ten blocks each, all within
  // budget, and the next log_write of one of those blocks panics although it needs no log space.
  lemma AbsorbedWriteCanPanic(g: Geometry, s: Sys, first: nat) returns (run: seq<Sys>, acts: seq<Action>)
    requires Fillable(g, s, first) && g.size > LOGSIZE
    ensures IsRun(g, run, acts) && run[0] == s
    ensures WithinBudget(g, run[|acts|], 0, first) && first in run[|acts|].lh && WritePanics(g, run[|acts|])
  {
    run, acts := FillLog(g, s, first, LOGSIZE);
    assert run[|acts|].lh[0] == first;
    FirstFilled(first, LOGSIZE);
  }

  lemma {:induction false} FirstFilled(first: nat, m: nat)
    requires m > 0
    ensures first in FilledOp(first, m, 0)
  {
    if m > 1 { FirstFilled(first, m - 1); }
  }

  // With the shipped file system, whose log has log.size == LOGSIZE, even a block that is new and
  // within budget can meet the panic.
  lemma ShippedLogCanPanic(g: Geometry, s: Sys, first: nat) returns (run: seq<Sys>, acts: seq<Action>)
    requires Fillable(g, s, first) && g.size == LOGSIZE
    ensures IsRun(g, run, acts) && run[0] == s
    ensures var t := run[|acts|];
      WithinBudget(g, t, 2, first + 29) && first + 29 !in t.lh && WritePanics(g, t)
  {
    run, acts := FillLog(g, s, first, LOGSIZE - 1);
    FilledOpSize(first, LOGSIZE - 1, 2);
    assert !InLog(g, first + 29) && first + 29 < |run[|acts|].disk|;
  }

  // ---------------------------------------------------------------- overflow

  // The last two writes of the run to an overflow: calls 1 and 2 both pass the test while one block of
  // the log is free.
  ghost predicate OneLeft(g: Geometry, s: Sys, t: Sys, first: nat) {
    && Inv(g, t) && !t.down && t.disk == s.disk && |t.ops| == 3 && |t.lh| == g.size - 2
    && t.lh == FilledLog(first, g.size - 2) && t.passed == [false, true, true]
    && |t.ops[1]| < MAXOPBLOCKS && |t.ops[2]| < MAXOPBLOCKS
  }

  lemma BothPass(g: Geometry, s: Sys, first: nat) returns (run: seq<Sys>, acts: seq<Action>)
    requires Fillable(g, s, first) && 2 <= g.size <= LOGSIZE
    ensures |run| == |acts| + 1 && IsRun(g, run, acts) && run[0] == s && OneLeft(g, s, run[|acts|], first)
  {
    var m := g.size - 2;
    run, acts := FillLog(g, s, first, m);
    var t := run[|acts|];
    FilledOpSize(first, m, 1);
    FilledOpSize(first, m, 2);
    assert Enabled(g, t, Test(1));
    hide Do, IsRun, Fillable, FilledLog, FilledOp, Inv;
    TestFields(g, t, 1);
    run, acts := ExtendRun(g, run, acts, Test(1));
    TestFields(g, run[|acts|], 2);
    run, acts := ExtendRun(g, run, acts, Test(2));
  }

  // Call 1 has taken that block.
  ghost predicate NoneLeft(g: Geometry, s: Sys, u: Sys, first: nat) {
    && Inv(g, u) && !u.down && u.disk == s.disk && |u.ops| == 3 && |u.lh| == g.size - 1
    && u.lh == FilledLog(first, g.size - 1) && u.passed == [false, false, true] && |u.ops[2]| < MAXOPBLOCKS
  }

  lemma FirstAppend(g: Geometry, s: Sys, t: Sys, first: nat, data: Block)
    requires Fillable(g, s, first) && 2 <= g.size <= LOGSIZE && OneLeft(g, s, t, first)
    ensures Enabled(g, t, LogWrite(1, first + g.size - 2, data))
    ensures NoneLeft(g, s, Do(g, t, LogWrite(1, first + g.size - 2, data)), first)
  {
    hide Do, Inv;
    var m := g.size - 2;
    assert !InLog(g, first + m) && first + m < |t.disk|;
    FilledLogNext(first, m);
    AfterLogWriteFields(g, t, 1, first + m, data);
  }

  // log.lh after an overflow: one block more than the log has, each in budget and pinned.
  ghost predicate Overflowed(g: Geometry, s: Sys, t: Sys, first: nat, data: Block) {
    !Inv(g, t) && TooLong(g, s, t, first, data)
  }

  ghost predicate TooLong(g: Geometry, s: Sys, t: Sys, first: nat, data: Block) {
    && !t.down && t.disk == s.disk
    && t.lh == FilledLog(first, g.size) && (forall b :: b in t.lh ==> b in t.dirty)
    && first + g.size - 1 in t.dirty && t.dirty[first + g.size - 1] == data
    && (forall i :: 0 <= i < |t.ops| ==> |t.ops[i]| <= MAXOPBLOCKS) && |t.lh| + Unused(t.ops) <= LOGSIZE
  }

  lemma NoneLeftFacts(g: Geometry, s: Sys, u: Sys, first: nat)
    requires NoneLeft(g, s, u, first)
    ensures var b := first + g.size - 1; b !in u.lh && b !in u.ops[2]
    ensures (forall b :: b in u.lh ==> b in u.dirty) && (forall i :: 0 <= i < |u.ops| ==> |u.ops[i]| <= MAXOPBLOCKS)
    ensures |u.lh| + Unused(u.ops) <= LOGSIZE
  {
    hide Recoverable, Unused;
  }

  lemma SecondEnabled(g: Geometry, s: Sys, u: Sys, first: nat, data: Block)
    requires Fillable(g, s, first) && 2 <= g.size <= LOGSIZE && NoneLeft(g, s, u, first)
    ensures var a := LogWrite(2, first + g.size - 1, data); Enabled(g, u, a) && Overflows(g, u, a)
  {
    NoneLeftFacts(g, s, u, first);
    hide Inv, Unused;
    var b := first + g.size - 1;
    assert !InLog(g, b) && b < |u.disk|;
  }

  lemma SecondLogged(g: Geometry, s: Sys, u: Sys, first: nat, data: Block)
    requires g.size >= 2 && NoneLeft(g, s, u, first)
    ensures TooLong(g, s, Logging(u, 2, first + g.size - 1, data), first, data)
  {
    NoneLeftFacts(g, s, u, first);
    hide Inv, Unused;
    var b := first + g.size - 1;
    FilledLogNext(first, g.size - 1);
    UnusedUpdate(u.ops, 2, u.ops[2] + {b});
  }

  lemma SecondAppend(g: Geometry, s: Sys, u: Sys, first: nat, data: Block)
    requires Fillable(g, s, first) && 2 <= g.size <= LOGSIZE && NoneLeft(g, s, u, first)
    ensures var a := LogWrite(2, first + g.size - 1, data);
      Enabled(g, u, a) && Overflows(g, u, a) && Overflowed(g, s, Do(g, u, a), first, data)
  {
    SecondEnabled(g, s, u, first, data);
    SecondLogged(g, s, u, first, data);
    AfterLogWriteFields(g, u, 2, first + g.size - 1, data);
    hide Do, Inv, Unused, TooLong, Overflows, Enabled, Logging;
  }

  // Reservations fit and each call passes the test, and still the log overflows: the log that mkfs makes,
  // of LOGSIZE blocks, is not enough, nor is any smaller one that takes a block at all.
  lemma OverflowRun(g: Geometry, s: Sys, first: nat, data: Block) returns (run: seq<Sys>, acts: seq<Action>)
    requires Fillable(g, s, first) && 2 <= g.size <= LOGSIZE
    ensures |run| == |acts| + 1 && IsRun(g, run, acts) && run[0] == s && !Contained(g, run, acts)
    ensures Overflowed(g, s, run[|acts|], first, data)
  {
    run, acts := BothPass(g, s, first);
    FirstAppend(g, s, run[|acts|], first, data);
    assert Inv(g, run[|acts|]);
    hide Inv, Do, Enabled, IsRun, Fillable, OneLeft, Overflowed, Overflows, NoneLeft;
    run, acts := ExtendRun(g, run, acts, LogWrite(1, first + g.size - 2, data));
    run, acts := OverflowLast(g, s, run, acts, first, data);
  }

  lemma OverflowLast(g: Geometry, s: Sys, run: seq<Sys>, acts: seq<Action>, first: nat, data: Block)
      returns (run': seq<Sys>, acts': seq<Action>)
    requires IsRun(g, run, acts) && run[0] == s && NoneLeft(g, s, run[|acts|], first)
    requires Fillable(g, s, first) && 2 <= g.size <= LOGSIZE
    ensures |run'| == |acts'| + 1 && IsRun(g, run', acts') && run'[0] == s && !Contained(g, run', acts')
    ensures Overflowed(g, s, run'[|acts'|], first, data)
  {
    var u := run[|acts|];
    SecondAppend(g, s, u, first, data);
    assert Inv(g, u);
    hide Inv, Do, Enabled, Fillable, Overflowed, Overflows, NoneLeft;
    run', acts' := ExtendRun(g, run, acts, LogWrite(2, first + g.size - 1, data));
    assert run'[|acts|] == u && Overflows(g, run'[|acts|], acts'[|acts|]);
  }

  // Which log sizes allow it.
  lemma OverflowsExactly(g: Geometry, s: Sys, first: nat)
    requires Fillable(g, s, first)
    ensures (exists run, acts :: IsRun(g, run, acts) && run[0] == s && !Contained(g, run, acts)) <==>
      2 <= g.size <= LOGSIZE
  {
    if 2 <= g.size <= LOGSIZE {
      var run, acts := OverflowRun(g, s, first, ZeroBlock());
    }
    forall run, acts | IsRun(g, run, acts) && run[0] == s && !Contained(g, run, acts) ensures 2 <= g.size <= LOGSIZE {
      RunInvExactly(g, run, acts);
    }
  }

  // What an overflow does, if write_log finds its buffers: it writes past the log, into the home block behind
  // it. After a power failure at that point recovery leaves that block with the bytes of another one, which
  // no call logged.
  lemma OverflowHitsHome(g: Geometry, s: Sys, t: Sys, first: nat, data: Block)
    requires Fillable(g, s, first) && 2 <= g.size <= LOGSIZE && Overflowed(g, s, t, first, data)
    requires g.start + g.size < |s.disk| && g.start + g.size < first
    ensures var h, e := g.start + g.size, Apply(t.disk, LogWrites(g, t.dirty, t.lh));
      && !InLog(g, h) && h !in t.lh && Recoverable(g, e) && |Recovered(g, e)| == |s.disk| && Recovered(g, e)[h] == data
  {
    assert Recoverable(g, s.disk) && Header(s.disk[g.start]) == [];
    hide Inv, Recovered, Apply, Word;
    var ws := LogWrites(g, t.dirty, t.lh);
    var e := Apply(t.disk, ws);
    ApplyHits(t.disk, ws, g.size - 1);
    ApplyMisses(t.disk, ws, g.start);
    SameHeader(g, t.disk, e);
    RecoveredAt(g, e);
  }

  lemma SameHeader(g: Geometry, d: Disk, e: Disk)
    requires Recoverable(g, d) && Header(d[g.start]) == [] && |e| == |d| && e[g.start] == d[g.start]
    ensures Recoverable(g, e) && Header(e[g.start]) == []
  {
  }
}
