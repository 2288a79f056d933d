/** The process table (proc.c), one step per critical section under ptable.lock: allocproc and fork, exit
    and wait, the scheduler's switch in and out, sleep, wakeup and kill, on any number of CPUs. */
module Proc {
  import opened Lists
  import opened Wrappers

  const NPROC: nat := 64
  const INT_MAX: nat := 0x7fff_ffff

  datatype State = UNUSED | EMBRYO | SLEEPING | RUNNABLE | RUNNING | ZOMBIE

  // What a process sleeps on: nothing, a process (only wait does, on its caller), or any other address.
  datatype Chan = NoChan | OnProc(i: nat) | Other(n: nat)

  // struct proc; `parent` is an index into the table.
  datatype Process = Process(state: State, pid: nat, parent: Option<nat>, chan: Chan, killed: bool)

  // The table, `cpu->proc` of each CPU, and `initproc`. Kept for the proof only: `embryo[i]`, the child
  // that process i is creating in a fork it has not finished; `exits` and `reaps`, the pids of the calls
  // of exit, and of the calls of wait that returned a child.
  datatype Table = Table(procs: seq<Process>, cpus: seq<Option<nat>>, nextpid: nat, init: nat,
                         embryo: seq<Option<nat>>, exits: seq<nat>, reaps: seq<nat>)

  predicate Alive(p: Process) {
    p.state.SLEEPING? || p.state.RUNNABLE? || p.state.RUNNING?
  }

  predicate ZombieChild(t: Table, i: nat, k: nat) {
    k < |t.procs| && t.procs[k].state.ZOMBIE? && t.procs[k].parent == Some(i)
  }

  predicate SleepsInWait(t: Table, i: nat) {
    i < |t.procs| && t.procs[i].state.SLEEPING? && t.procs[i].chan == OnProc(i)
  }

  predicate OnCpu(t: Table, c: nat, i: nat) {
    c < |t.cpus| && t.cpus[c] == Some(i)
  }

  ghost predicate Shape(t: Table) {
    && |t.procs| == |t.embryo| == NPROC && 0 < t.nextpid <= INT_MAX
    && t.init < NPROC && Alive(t.procs[t.init])
  }

  // A parent is a live process, and only initproc and unfinished processes have none.
  ghost predicate ParentOk(t: Table, i: nat)
    requires Shape(t) && i < NPROC
  {
    var p := t.procs[i];
    match p.parent
    case Some(q) => q < NPROC && q != i && Alive(t.procs[q]) && !p.state.UNUSED? && i != t.init
    case None => p.state.UNUSED? || p.state.EMBRYO? || i == t.init
  }

  ghost predicate ChanOk(t: Table, i: nat)
    requires Shape(t) && i < NPROC
  {
    var p := t.procs[i];
    p.state.SLEEPING? ==>
      && p.chan != NoChan
      && (p.chan.OnProc? ==> p.chan.i == i && forall k: nat :: !ZombieChild(t, i, k))
  }

  ghost predicate PidOk(t: Table, i: nat)
    requires Shape(t) && i < NPROC
  {
    var p := t.procs[i];
    && p.pid < t.nextpid
    && (!p.state.UNUSED? ==> 0 < p.pid)
    && (p.state.ZOMBIE? ==> p.pid in t.exits && p.pid !in t.reaps)
    && (!p.state.ZOMBIE? && 0 < p.pid ==> p.pid !in t.exits)
  }

  ghost predicate EmbryoOk(t: Table, i: nat)
    requires Shape(t) && i < NPROC
  {
    match t.embryo[i]
    case None => true
    case Some(c) => c < NPROC && Alive(t.procs[i]) && t.procs[c].state.EMBRYO?
  }

  ghost predicate SlotOk(t: Table, i: nat)
    requires Shape(t) && i < NPROC
  {
    ParentOk(t, i) && ChanOk(t, i) && PidOk(t, i) && EmbryoOk(t, i)
  }

  // A process is RUNNING exactly when it is current on a CPU, and then on one only.
  ghost predicate CpusOk(t: Table)
    requires Shape(t)
  {
    && (forall c: nat, i: nat :: OnCpu(t, c, i) ==> i < NPROC && t.procs[i].state.RUNNING?)
    && (forall c: nat, d: nat, i: nat :: OnCpu(t, c, i) && OnCpu(t, d, i) ==> c == d)
    && (forall i :: 0 <= i < NPROC && t.procs[i].state.RUNNING? ==> exists c: nat :: OnCpu(t, c, i))
  }

  ghost predicate SamePid(t: Table, i: nat, k: nat)
    requires Shape(t) && i < NPROC && k < NPROC
  {
    0 < t.procs[i].pid && t.procs[i].pid == t.procs[k].pid
  }

  ghost predicate PidsDistinct(t: Table)
    requires Shape(t)
  {
    forall i, k :: 0 <= i < k < NPROC ==> !SamePid(t, i, k)
  }

  ghost predicate EmbryosDistinct(t: Table)
    requires Shape(t)
  {
    forall i, k :: 0 <= i < k < NPROC && t.embryo[i].Some? ==> t.embryo[i] != t.embryo[k]
  }

  predicate IsZombie(t: Table, i: nat, pid: nat) {
    i < |t.procs| && t.procs[i].state.ZOMBIE? && t.procs[i].pid == pid
  }

  // Every exit was reaped once, or its process is still a zombie.
  ghost predicate LogsOk(t: Table) {
    && Distinct(t.exits) && Distinct(t.reaps)
    && (forall pid :: pid in t.exits ==> 0 < pid < t.nextpid)
    && (forall pid :: pid in t.reaps ==> pid in t.exits)
    && (forall pid :: pid in t.exits && pid !in t.reaps ==> exists i: nat :: IsZombie(t, i, pid))
  }

  ghost predicate Inv(t: Table) {
    && Shape(t) && CpusOk(t) && PidsDistinct(t) && EmbryosDistinct(t) && LogsOk(t)
    && forall i :: 0 <= i < NPROC ==> SlotOk(t, i)
  }

  // ---------------------------------------------------------------- steps

  function Wake(p: Process, chan: Chan): Process {
    if p.state.SLEEPING? && p.chan == chan then p.(state := RUNNABLE) else p
  }

  // wakeup1.
  function Woken(ps: seq<Process>, chan: Chan): (r: seq<Process>)
    ensures |r| == |ps|
  {
    seq(|ps|, i requires 0 <= i < |ps| => Wake(ps[i], chan))
  }

  function Adopt(p: Process, cur: nat, init: nat): Process {
    if p.parent == Some(cur) then p.(parent := Some(init)) else p
  }

  function Adopted(ps: seq<Process>, cur: nat, init: nat): (r: seq<Process>)
    ensures |r| == |ps|
  {
    seq(|ps|, i requires 0 <= i < |ps| => Adopt(ps[i], cur, init))
  }

  ghost predicate LeavesZombies(ps: seq<Process>, cur: nat) {
    exists k :: 0 <= k < |ps| && ps[k].state.ZOMBIE? && ps[k].parent == Some(cur)
  }

  function ParentChan(p: Process): Chan {
    if p.parent.Some? then OnProc(p.parent.value) else NoChan
  }

  // The table when exit enters the scheduler.
  ghost function Exited(ps: seq<Process>, cur: nat, init: nat): (r: seq<Process>)
    requires cur < |ps|
    ensures |r| == |ps|
  {
    var woken := Adopted(Woken(ps, ParentChan(ps[cur])), cur, init);
    var all := if LeavesZombies(ps, cur) then Woken(woken, OnProc(init)) else woken;
    all[cur := all[cur].(state := ZOMBIE)]
  }

  function FirstUnused(ps: seq<Process>, k: nat): (r: Option<nat>)
    requires k <= |ps|
    ensures r.Some? ==> k <= r.value < |ps| && ps[r.value].state.UNUSED?
    ensures r.None? ==> forall i :: k <= i < |ps| ==> !ps[i].state.UNUSED?
    decreases |ps| - k
  {
    if k == |ps| then None else if ps[k].state.UNUSED? then Some(k) else FirstUnused(ps, k + 1)
  }

  function FirstZombie(ps: seq<Process>, cur: nat, k: nat): (r: Option<nat>)
    requires k <= |ps|
    ensures r.Some? ==> k <= r.value < |ps| && ps[r.value].state.ZOMBIE? && ps[r.value].parent == Some(cur)
    ensures r.None? ==> forall i :: k <= i < |ps| ==> !(ps[i].state.ZOMBIE? && ps[i].parent == Some(cur))
    decreases |ps| - k
  {
    if k == |ps| then None
    else if ps[k].state.ZOMBIE? && ps[k].parent == Some(cur) then Some(k) else FirstZombie(ps, cur, k + 1)
  }

  function FirstPid(ps: seq<Process>, pid: nat, k: nat): (r: Option<nat>)
    requires k <= |ps|
    ensures r.Some? ==> k <= r.value < |ps| && ps[r.value].pid == pid
    ensures r.None? ==> forall i :: k <= i < |ps| ==> ps[i].pid != pid
    decreases |ps| - k
  {
    if k == |ps| then None else if ps[k].pid == pid then Some(k) else FirstPid(ps, pid, k + 1)
  }

  ghost predicate HasKids(ps: seq<Process>, cur: nat) {
    exists k :: 0 <= k < |ps| && ps[k].parent == Some(cur)
  }

  // Critical sections. Alloc is allocproc; Abandon is fork or allocproc giving its new slot up; Link sets
  // the child's parent and Finish makes it RUNNABLE; Dispatch is the scheduler switching to a process,
  // which tidies up after its sleep if it was in one.
  datatype Step =
    | Alloc(c: nat) | Abandon(c: nat) | Link(c: nat) | Finish(c: nat)
    | Exit(c: nat) | Wait(c: nat)
    | Dispatch(c: nat, i: nat) | Yield(c: nat) | Sleep(c: nat, n: nat)
    | Wakeup(n: nat) | Kill(pid: nat)

  predicate Runs(t: Table, c: nat) {
    c < |t.cpus| && t.cpus[c].Some? && t.cpus[c].value < |t.procs| == |t.embryo|
  }

  function Cur(t: Table, c: nat): (i: nat)
    requires Runs(t, c)
    ensures i < |t.procs| == |t.embryo|
  {
    t.cpus[c].value
  }

  // The process on c is inside fork, and has a child that is not finished.
  predicate Forks(t: Table, c: nat) {
    Runs(t, c) && t.embryo[Cur(t, c)].Some? && t.embryo[Cur(t, c)].value < |t.procs|
  }

  function Child(t: Table, c: nat): (k: nat)
    requires Forks(t, c)
    ensures k < |t.procs|
  {
    t.embryo[Cur(t, c)].value
  }

  // When the step can come next. A process inside fork calls nothing else, and initproc does not exit
  // (exit panics). Process ids stay within an int.
  predicate Enabled(t: Table, s: Step) {
    match s
    case Alloc(c) => Runs(t, c) && t.embryo[Cur(t, c)].None? && t.nextpid < INT_MAX
    case Abandon(c) => Forks(t, c) && t.procs[Child(t, c)].parent.None?
    case Link(c) => Forks(t, c) && t.procs[Child(t, c)].parent.None?
    case Finish(c) => Forks(t, c) && t.procs[Child(t, c)].parent.Some?
    case Exit(c) => Runs(t, c) && t.embryo[Cur(t, c)].None? && Cur(t, c) != t.init
    case Wait(c) => Runs(t, c) && t.embryo[Cur(t, c)].None?
    case Dispatch(c, i) => c < |t.cpus| && t.cpus[c].None? && i < |t.procs| && t.procs[i].state.RUNNABLE?
    case Yield(c) => Runs(t, c)
    case Sleep(c, _) => Runs(t, c)
    case Wakeup(_) => true
    case Kill(_) => true
  }

  function Set(t: Table, i: nat, p: Process): Table
    requires i < |t.procs|
  {
    t.(procs := t.procs[i := p])
  }

  // The process that runs on c leaves it, in state p.
  function Leave(t: Table, c: nat, p: Process): Table
    requires Runs(t, c)
  {
    Set(t, t.cpus[c].value, p).(cpus := t.cpus[c := None])
  }

  ghost function AfterWait(t: Table, c: nat): Table
    requires Runs(t, c)
  {
    var cur := t.cpus[c].value;
    var z := FirstZombie(t.procs, cur, 0);
    if z.Some? then
      var p := t.procs[z.value];
      Set(t, z.value, p.(state := UNUSED, pid := 0, parent := None, killed := false)).(reaps := t.reaps + [p.pid])
    else if !HasKids(t.procs, cur) || t.procs[cur].killed then t
    else Leave(t, c, t.procs[cur].(state := SLEEPING, chan := OnProc(cur)))
  }

  ghost function AfterExit(t: Table, c: nat): Table
    requires Runs(t, c)
  {
    var cur := t.cpus[c].value;
    t.(procs := Exited(t.procs, cur, t.init), cpus := t.cpus[c := None], exits := t.exits + [t.procs[cur].pid])
  }

  function AfterAlloc(t: Table, c: nat): Table
    requires Runs(t, c)
  {
    var u := FirstUnused(t.procs, 0);
    if u.None? then t
    else
      Set(t, u.value, t.procs[u.value].(state := EMBRYO, pid := t.nextpid)).
        (nextpid := t.nextpid + 1, embryo := t.embryo[t.cpus[c].value := u])
  }

  function AfterKill(t: Table, pid: nat): Table {
    var k := FirstPid(t.procs, pid, 0);
    if k.None? then t
    else
      var p := t.procs[k.value];
      Set(t, k.value, p.(killed := true, state := if p.state.SLEEPING? then RUNNABLE else p.state))
  }

  ghost function Do(t: Table, s: Step): Table
    requires Enabled(t, s)
  {
    match s
    case Alloc(c) => AfterAlloc(t, c)
    case Abandon(c) =>
      Set(t, Child(t, c), t.procs[Child(t, c)].(state := UNUSED)).(embryo := t.embryo[Cur(t, c) := None])
    case Link(c) => Set(t, Child(t, c), t.procs[Child(t, c)].(parent := Some(Cur(t, c))))
    case Finish(c) =>
      Set(t, Child(t, c), t.procs[Child(t, c)].(state := RUNNABLE)).(embryo := t.embryo[Cur(t, c) := None])
    case Exit(c) => AfterExit(t, c)
    case Wait(c) => AfterWait(t, c)
    case Dispatch(c, i) => Set(t, i, t.procs[i].(state := RUNNING, chan := NoChan)).(cpus := t.cpus[c := Some(i)])
    case Yield(c) => Leave(t, c, t.procs[Cur(t, c)].(state := RUNNABLE))
    case Sleep(c, n) => Leave(t, c, t.procs[Cur(t, c)].(state := SLEEPING, chan := Other(n)))
    case Wakeup(n) => t.(procs := Woken(t.procs, Other(n)))
    case Kill(pid) => AfterKill(t, pid)
  }

  // ---------------------------------------------------------------- steps on one slot

  // u is t with slot j changed, by a step in which nobody exits and nobody falls asleep in wait.
  ghost predicate Calm(t: Table, u: Table, j: nat) {
    && Shape(t) && Shape(u) && j < NPROC && u.init == t.init && t.nextpid <= u.nextpid && u.exits == t.exits
    && (forall i :: 0 <= i < NPROC && i != j ==> u.procs[i] == t.procs[i])
    && (Alive(t.procs[j]) ==> Alive(u.procs[j]))
    && (u.procs[j].state.ZOMBIE? ==> u.procs[j].parent == t.procs[j].parent && t.procs[j].state.ZOMBIE?)
    && (forall pid :: pid in u.reaps ==> pid in t.reaps || pid == t.procs[j].pid)
  }

  lemma CalmSlot(t: Table, u: Table, j: nat, i: nat)
    requires Calm(t, u, j) && i < NPROC && i != j && SlotOk(t, i)
    requires t.procs[j].pid == t.procs[i].pid ==> u.reaps == t.reaps
    requires EmbryoOk(u, i)
    ensures SlotOk(u, i)
  {
    forall k: nat | ZombieChild(u, i, k) ensures ZombieChild(t, i, k) { }
  }

  // Such a step keeps the invariant if it leaves slot j itself, the CPUs and the logs in order.
  lemma CalmInv(t: Table, u: Table, j: nat)
    requires Inv(t) && Calm(t, u, j) && SlotOk(u, j) && CpusOk(u) && LogsOk(u) && EmbryosDistinct(u)
    requires forall i :: 0 <= i < NPROC ==> EmbryoOk(u, i)
    requires u.reaps == t.reaps || 0 < t.procs[j].pid
    requires u.procs[j].pid == t.procs[j].pid || u.procs[j].pid == 0 || u.procs[j].pid == t.nextpid
    ensures Inv(u)
  {
    hide CpusOk, LogsOk, EmbryosDistinct, EmbryoOk;
    forall i: nat | i < NPROC && i != j ensures SlotOk(u, i) {
      assert SlotOk(t, i);
      if 0 < t.procs[j].pid { DistinctPid(t, i, j); }
      CalmSlot(t, u, j, i);
    }
    hide SlotOk;
    forall i, l | 0 <= i < l < NPROC ensures !SamePid(u, i, l) { CalmPids(t, u, j, i, l); }
  }

  lemma CalmPids(t: Table, u: Table, j: nat, i: nat, l: nat)
    requires Inv(t) && Calm(t, u, j) && i < l < NPROC
    requires u.procs[j].pid == t.procs[j].pid || u.procs[j].pid == 0 || u.procs[j].pid == t.nextpid
    ensures !SamePid(u, i, l)
  {
    assert SlotOk(t, i) && SlotOk(t, l) && !SamePid(t, i, l);
  }

  lemma DistinctPid(t: Table, i: nat, k: nat)
    requires Inv(t) && i < NPROC && k < NPROC && i != k && 0 < t.procs[k].pid
    ensures t.procs[i].pid != t.procs[k].pid
  {
    assert !SamePid(t, if i < k then i else k, if i < k then k else i);
  }

  // The CPUs after a step in which process j neither starts nor stops running.
  lemma SameCpus(t: Table, u: Table)
    requires Shape(t) && Shape(u) && CpusOk(t) && u.cpus == t.cpus
    requires forall i :: 0 <= i < NPROC ==> u.procs[i].state.RUNNING? == t.procs[i].state.RUNNING?
    ensures CpusOk(u)
  {
    forall c: nat, i: nat ensures OnCpu(u, c, i) == OnCpu(t, c, i) { }
    forall i | 0 <= i < NPROC && u.procs[i].state.RUNNING? ensures exists c: nat :: OnCpu(u, c, i) {
      var c: nat :| OnCpu(t, c, i);
      assert OnCpu(u, c, i);
    }
  }

  // The CPUs after the process on c left it.
  lemma LeftCpus(t: Table, u: Table, c: nat)
    requires Shape(t) && Shape(u) && CpusOk(t) && Runs(t, c) && u.cpus == t.cpus[c := None]
    requires forall i :: 0 <= i < NPROC ==> u.procs[i].state.RUNNING? == (t.procs[i].state.RUNNING? && i != Cur(t, c))
    ensures CpusOk(u)
  {
    assert OnCpu(t, c, Cur(t, c));
    forall d: nat, i: nat ensures OnCpu(u, d, i) == (OnCpu(t, d, i) && d != c) { }
    forall i | 0 <= i < NPROC && u.procs[i].state.RUNNING? ensures exists d: nat :: OnCpu(u, d, i) {
      var d: nat :| OnCpu(t, d, i);
      assert OnCpu(u, d, i);
    }
  }

  lemma CurRuns(t: Table, c: nat)
    requires Inv(t) && Runs(t, c)
    ensures t.procs[Cur(t, c)].state.RUNNING? && SlotOk(t, Cur(t, c))
  {
    assert OnCpu(t, c, Cur(t, c));
  }

  // The logs after a step that neither exits nor reaps.
  lemma SameLogs(t: Table, u: Table)
    requires LogsOk(t) && u.exits == t.exits && u.reaps == t.reaps && t.nextpid <= u.nextpid
    requires forall i: nat, pid: nat :: IsZombie(t, i, pid) ==> IsZombie(u, i, pid)
    ensures LogsOk(u)
  {
    forall pid | pid in u.exits && pid !in u.reaps ensures exists i: nat :: IsZombie(u, i, pid) {
      var i: nat :| IsZombie(t, i, pid);
      assert IsZombie(u, i, pid);
    }
  }

  lemma AllocInv(t: Table, c: nat)
    requires Inv(t) && Enabled(t, Alloc(c))
    ensures Inv(Do(t, Alloc(c)))
  {
    var u, k := Do(t, Alloc(c)), FirstUnused(t.procs, 0);
    CurRuns(t, c);
    if k.Some? {
      assert SlotOk(t, k.value);
      forall i | 0 <= i < NPROC ensures EmbryoOk(u, i) && t.embryo[i] != k { assert SlotOk(t, i); }
      SameCpus(t, u);
      SameLogs(t, u);
      CalmInv(t, u, k.value);
    }
  }

  // What a step of a process inside fork may rely on.
  lemma ChildIsEmbryo(t: Table, c: nat)
    requires Inv(t) && Forks(t, c)
    ensures var j, cur := Child(t, c), Cur(t, c);
      && t.procs[j].state.EMBRYO? && t.procs[cur].state.RUNNING? && SlotOk(t, j) && SlotOk(t, cur)
      && forall i :: 0 <= i < NPROC && i != cur ==> t.embryo[i] != Some(j)
  {
    CurRuns(t, c);
  }

  lemma ForkInv(t: Table, s: Step)
    requires Inv(t) && Enabled(t, s) && (s.Abandon? || s.Link? || s.Finish?)
    ensures Inv(Do(t, s))
  {
    var u, j := Do(t, s), Child(t, s.c);
    ChildIsEmbryo(t, s.c);
    forall i | 0 <= i < NPROC ensures EmbryoOk(u, i) { assert SlotOk(t, i); }
    SameCpus(t, u);
    SameLogs(t, u);
    CalmInv(t, u, j);
  }

  lemma LeaveInv(t: Table, s: Step)
    requires Inv(t) && Enabled(t, s) && (s.Yield? || s.Sleep?)
    ensures Inv(Do(t, s))
  {
    var u, j := Do(t, s), Cur(t, s.c);
    CurRuns(t, s.c);
    forall i | 0 <= i < NPROC ensures EmbryoOk(u, i) { assert SlotOk(t, i); }
    LeftCpus(t, u, s.c);
    SameLogs(t, u);
    CalmInv(t, u, j);
  }

  lemma DispatchInv(t: Table, c: nat, j: nat)
    requires Inv(t) && Enabled(t, Dispatch(c, j))
    ensures Inv(Do(t, Dispatch(c, j)))
  {
    var u := Do(t, Dispatch(c, j));
    assert SlotOk(t, j);
    forall i | 0 <= i < NPROC ensures EmbryoOk(u, i) { assert SlotOk(t, i); }
    DispatchCpus(t, u, c, j);
    SameLogs(t, u);
    CalmInv(t, u, j);
  }

  lemma DispatchCpus(t: Table, u: Table, c: nat, j: nat)
    requires Shape(t) && Shape(u) && CpusOk(t) && c < |t.cpus| && t.cpus[c].None? && j < NPROC
    requires !t.procs[j].state.RUNNING?
    requires u.cpus == t.cpus[c := Some(j)]
    requires forall i :: 0 <= i < NPROC ==> u.procs[i].state.RUNNING? == (t.procs[i].state.RUNNING? || i == j)
    ensures CpusOk(u)
  {
    forall d: nat, i: nat ensures OnCpu(u, d, i) == (if d == c then i == j else OnCpu(t, d, i)) { }
    forall i | 0 <= i < NPROC && u.procs[i].state.RUNNING? ensures exists d: nat :: OnCpu(u, d, i) {
      if i == j { assert OnCpu(u, c, i); } else {
        var d: nat :| OnCpu(t, d, i);
        assert OnCpu(u, d, i);
      }
    }
  }

  lemma KillInv(t: Table, pid: nat)
    requires Inv(t)
    ensures Inv(Do(t, Kill(pid)))
  {
    var u, k := Do(t, Kill(pid)), FirstPid(t.procs, pid, 0);
    if k.Some? {
      assert SlotOk(t, k.value);
      forall i | 0 <= i < NPROC ensures EmbryoOk(u, i) { assert SlotOk(t, i); }
      SameCpus(t, u);
      SameLogs(t, u);
      CalmInv(t, u, k.value);
    }
  }

  lemma WakeupInv(t: Table, chan: Chan)
    requires Inv(t)
    ensures Inv(t.(procs := Woken(t.procs, chan)))
  {
    var u := t.(procs := Woken(t.procs, chan));
    forall i | 0 <= i < NPROC ensures SlotOk(u, i) {
      assert SlotOk(t, i);
      forall k: nat ensures ZombieChild(u, i, k) == ZombieChild(t, i, k) { }
    }
    SameCpus(t, u);
    SameLogs(t, u);
    forall i, l | 0 <= i < l < NPROC ensures !SamePid(u, i, l) { assert !SamePid(t, i, l); }
  }

  // ---------------------------------------------------------------- exit and wait

  lemma ReapInv(t: Table, c: nat, j: nat)
    requires Inv(t) && Enabled(t, Wait(c)) && FirstZombie(t.procs, Cur(t, c), 0) == Some(j)
    ensures Inv(Do(t, Wait(c)))
  {
    var u := Do(t, Wait(c));
    assert SlotOk(t, j);
    forall i | 0 <= i < NPROC ensures EmbryoOk(u, i) { assert SlotOk(t, i); }
    SameCpus(t, u);
    ReapLogs(t, u, j);
    CalmInv(t, u, j);
  }

  lemma ReapLogs(t: Table, u: Table, j: nat)
    requires Shape(t) && LogsOk(t) && j < NPROC && PidOk(t, j) && t.procs[j].state.ZOMBIE? && |u.procs| == NPROC
    requires u.exits == t.exits && u.reaps == t.reaps + [t.procs[j].pid] && u.nextpid == t.nextpid
    requires forall i :: 0 <= i < NPROC && i != j ==> u.procs[i] == t.procs[i]
    ensures LogsOk(u)
  {
    forall p | p in u.exits && p !in u.reaps ensures exists i: nat :: IsZombie(u, i, p) {
      assert u.reaps[|t.reaps|] == t.procs[j].pid;
      var i: nat :| IsZombie(t, i, p);
      assert IsZombie(u, i, p);
    }
  }

  // Falling asleep in wait: the scan saw every child, and none is a zombie.
  lemma WaitSleepInv(t: Table, c: nat)
    requires Inv(t) && Enabled(t, Wait(c)) && FirstZombie(t.procs, Cur(t, c), 0).None?
    ensures Inv(Do(t, Wait(c)))
  {
    var u, j := Do(t, Wait(c)), Cur(t, c);
    if u != t {
      CurRuns(t, c);
      forall i | 0 <= i < NPROC ensures EmbryoOk(u, i) { assert SlotOk(t, i); }
      assert forall k: nat :: ZombieChild(u, j, k) ==> ZombieChild(t, j, k);
      LeftCpus(t, u, c);
      SameLogs(t, u);
      CalmInv(t, u, j);
    }
  }

  // What exit does to each slot.
  lemma ExitedAt(ps: seq<Process>, cur: nat, init: nat, i: nat)
    requires cur < |ps| && i < |ps|
    ensures var p, r := ps[i], Exited(ps, cur, init)[i];
      && r.pid == p.pid && r.chan == p.chan && r.killed == p.killed
      && r.parent == (if p.parent == Some(cur) then Some(init) else p.parent)
      && (i == cur ==> r.state == ZOMBIE)
      && (i != cur ==> r.state == p.state || (p.state.SLEEPING? && r.state.RUNNABLE?))
      && (i != cur && r.state.SLEEPING? ==>
           p.chan != ParentChan(ps[cur]) && (LeavesZombies(ps, cur) ==> p.chan != OnProc(init)))
  {
  }

  lemma ExitSlot(t: Table, c: nat, i: nat)
    requires Inv(t) && Enabled(t, Exit(c)) && i < NPROC
    ensures var u := Do(t, Exit(c)); Shape(u) && SlotOk(u, i)
  {
    hide LogsOk, PidsDistinct, EmbryosDistinct, Exited, LeavesZombies;
    var u, cur := Do(t, Exit(c)), Cur(t, c);
    CurRuns(t, c);
    ExitedAt(t.procs, cur, t.init, t.init);
    ExitedAt(t.procs, cur, t.init, i);
    assert SlotOk(t, i);
    ExitPid(t, c, i);
    if t.procs[i].parent.Some? { ExitedAt(t.procs, cur, t.init, t.procs[i].parent.value); }
    if t.embryo[i].Some? { ExitedAt(t.procs, cur, t.init, t.embryo[i].value); }
    if SleepsInWait(u, i) {
      forall k: nat ensures !ZombieChild(u, i, k) { NoZombieLeft(t, c, i, k); }
    }
  }

  // exit wakes its parent, and wakes initproc when it leaves it a zombie: no sleeper misses a child.
  lemma NoZombieLeft(t: Table, c: nat, i: nat, k: nat)
    requires Inv(t) && Enabled(t, Exit(c)) && SleepsInWait(Do(t, Exit(c)), i)
    ensures !ZombieChild(Do(t, Exit(c)), i, k)
  {
    hide LogsOk, PidsDistinct, EmbryosDistinct, Exited, CpusOk;
    var cur := Cur(t, c);
    if k < NPROC && i < NPROC {
      ExitedAt(t.procs, cur, t.init, i);
      ExitedAt(t.procs, cur, t.init, k);
      assert SlotOk(t, i) && SlotOk(t, cur);
      assert !ZombieChild(t, i, k);
    }
  }

  lemma ExitPid(t: Table, c: nat, i: nat)
    requires Inv(t) && Enabled(t, Exit(c)) && i < NPROC
    ensures Shape(Do(t, Exit(c))) && PidOk(Do(t, Exit(c)), i)
  {
    hide PidsDistinct, EmbryosDistinct, Exited;
    var cur := Cur(t, c);
    CurRuns(t, c);
    ExitedAt(t.procs, cur, t.init, t.init);
    ExitedAt(t.procs, cur, t.init, i);
    assert SlotOk(t, i);
    if i != cur { DistinctPid(t, i, cur); }
  }

  lemma ExitInv(t: Table, c: nat)
    requires Inv(t) && Enabled(t, Exit(c))
    ensures Inv(Do(t, Exit(c)))
  {
    hide Exited, SlotOk;
    var u, cur := Do(t, Exit(c)), Cur(t, c);
    CurRuns(t, c);
    ExitSlot(t, c, 0);
    forall i | 0 <= i < NPROC ensures SlotOk(u, i) { ExitSlot(t, c, i); }
    forall i: nat | i < NPROC
      ensures u.procs[i].pid == t.procs[i].pid && u.procs[i].state.RUNNING? == (t.procs[i].state.RUNNING? && i != cur)
      ensures u.procs[i].state.ZOMBIE? == (t.procs[i].state.ZOMBIE? || i == cur)
    {
      ExitedAt(t.procs, cur, t.init, i);
    }
    LeftCpus(t, u, c);
    ExitLogs(t, u, cur);
    forall i, l | 0 <= i < l < NPROC ensures !SamePid(u, i, l) { assert !SamePid(t, i, l); }
  }

  lemma ExitLogs(t: Table, u: Table, cur: nat)
    requires Shape(t) && Shape(u) && LogsOk(t) && cur < NPROC && SlotOk(t, cur) && t.procs[cur].state.RUNNING?
    requires u.exits == t.exits + [t.procs[cur].pid] && u.reaps == t.reaps && u.nextpid == t.nextpid
    requires forall i :: 0 <= i < NPROC ==>
      u.procs[i].pid == t.procs[i].pid && u.procs[i].state.ZOMBIE? == (t.procs[i].state.ZOMBIE? || i == cur)
    ensures LogsOk(u)
  {
    forall pid | pid in u.exits && pid !in u.reaps ensures exists i: nat :: IsZombie(u, i, pid) {
      if pid == t.procs[cur].pid { assert IsZombie(u, cur, pid); } else {
        var i: nat :| IsZombie(t, i, pid);
        assert IsZombie(u, i, pid);
      }
    }
  }

  // Every critical section, on any CPU, keeps the table in order.
  lemma StepInv(t: Table, s: Step)
    requires Inv(t) && Enabled(t, s)
    ensures Inv(Do(t, s))
  {
    hide Inv;
    match s
    case Alloc(c) => AllocInv(t, c);
    case Abandon(_) => ForkInv(t, s);
    case Link(_) => ForkInv(t, s);
    case Finish(_) => ForkInv(t, s);
    case Exit(c) => ExitInv(t, c);
    case Wait(c) =>
      var z := FirstZombie(t.procs, Cur(t, c), 0);
      if z.Some? { ReapInv(t, c, z.value); } else { WaitSleepInv(t, c); }
    case Dispatch(c, i) => DispatchInv(t, c, i);
    case Yield(_) => LeaveInv(t, s);
    case Sleep(_, _) => LeaveInv(t, s);
    case Wakeup(n) => WakeupInv(t, Other(n));
    case Kill(pid) => KillInv(t, pid);
  }

  // ---------------------------------------------------------------- runs

  // The table when userinit returns: one process, which is initproc.
  ghost predicate Initial(t: Table) {
    && |t.procs| == |t.embryo| == NPROC && t.init == 0 && t.nextpid == 2 && t.exits == [] && t.reaps == []
    && t.procs[0].state.RUNNABLE? && t.procs[0].pid == 1 && t.procs[0].parent.None?
    && (forall i :: 1 <= i < NPROC ==> t.procs[i].state.UNUSED? && t.procs[i].pid == 0 && t.procs[i].parent.None?)
    && (forall i :: 0 <= i < NPROC ==> t.embryo[i].None?)
    && (forall c :: 0 <= c < |t.cpus| ==> t.cpus[c].None?)
  }

  lemma InitialInv(t: Table)
    requires Initial(t)
    ensures Inv(t)
  {
  }

  ghost predicate IsRun(run: seq<Table>, steps: seq<Step>) {
    && |run| == |steps| + 1 && Initial(run[0])
    && (forall i {:trigger steps[i]} :: 0 <= i < |steps| ==>
         Enabled(run[i], steps[i]) && run[i + 1] == Do(run[i], steps[i]))
  }

  lemma {:induction false} RunInv(run: seq<Table>, steps: seq<Step>, n: nat)
    requires IsRun(run, steps) && n < |run|
    ensures Inv(run[n])
  {
    hide Inv, Initial, Enabled, Do;
    if n == 0 {
      InitialInv(run[0]);
    } else {
      RunInv(run, steps, n - 1);
      assert run[n - 1 + 1] == Do(run[n - 1], steps[n - 1]);
      StepInv(run[n - 1], steps[n - 1]);
    }
  }

  // Whenever ptable.lock is free, in any run on any number of CPUs.
  lemma RunsKeepOrder(run: seq<Table>, steps: seq<Step>, n: nat)
    requires IsRun(run, steps) && n < |run|
    ensures var t := run[n];
      && |t.procs| == NPROC
      && (forall i, k :: 0 <= i < k < NPROC && t.procs[i].pid != 0 ==> t.procs[i].pid != t.procs[k].pid)
      && (forall i: nat :: i < NPROC ==> (t.procs[i].state.RUNNING? <==> exists c: nat :: OnCpu(t, c, i)))
      && (forall c: nat, d: nat, i: nat :: OnCpu(t, c, i) && OnCpu(t, d, i) ==> c == d)
      && (forall i :: 0 <= i < NPROC && !t.procs[i].state.UNUSED? && t.procs[i].parent.Some? ==>
            var q := t.procs[i].parent.value; q < NPROC && !t.procs[q].state.UNUSED? && !t.procs[q].state.ZOMBIE?)
      && (forall i: nat, k: nat :: !(SleepsInWait(t, i) && ZombieChild(t, i, k)))
      && Distinct(t.reaps) && Distinct(t.exits) && (forall pid :: pid in t.reaps ==> pid in t.exits)
  {
    RunInv(run, steps, n);
    var t := run[n];
    forall i, k | 0 <= i < k < NPROC && t.procs[i].pid != 0
      ensures t.procs[i].pid != t.procs[k].pid { assert !SamePid(t, i, k); }
    forall i | 0 <= i < NPROC && !t.procs[i].state.UNUSED? && t.procs[i].parent.Some?
      ensures var q := t.procs[i].parent.value; q < NPROC && !t.procs[q].state.UNUSED? && !t.procs[q].state.ZOMBIE?
    {
      assert SlotOk(t, i);
    }
    forall i: nat, k: nat ensures !(SleepsInWait(t, i) && ZombieChild(t, i, k)) {
      assert i < NPROC ==> SlotOk(t, i);
    }
  }

  // Of the processes that exited, those not yet reaped are exactly the zombies.
  lemma ExitsAreReapsAndZombies(t: Table, pid: nat)
    requires Inv(t) && 0 < pid
    ensures pid in t.exits <==> pid in t.reaps || exists i: nat :: IsZombie(t, i, pid)
    ensures !(pid in t.reaps && exists i: nat :: IsZombie(t, i, pid))
  {
    forall i: nat | IsZombie(t, i, pid) ensures pid in t.exits && pid !in t.reaps { assert SlotOk(t, i); }
  }
}
