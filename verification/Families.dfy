/** Whose child a process is, and who reaps it, over whole runs of the process table (fork, exit and wait of
    proc.c), told from the steps of the run. */
module Families {
  import opened Lists
  import opened Wrappers
  import opened Proc

  // For each pid that an allocproc handed out, the pid of the process that ran it.
  function NextMade(t: Table, s: Step, made: map<nat, nat>): map<nat, nat> {
    if s.Alloc? && Runs(t, s.c) && FirstUnused(t.procs, 0).Some? then made[t.nextpid := t.procs[Cur(t, s.c)].pid]
    else made
  }

  function Made(run: seq<Table>, steps: seq<Step>, n: nat): map<nat, nat>
    requires |run| == |steps| + 1 && n <= |steps|
  {
    if n == 0 then map[] else NextMade(run[n - 1], steps[n - 1], Made(run, steps, n - 1))
  }

  // Some step among the first n is the exit of process pid.
  predicate HasExited(run: seq<Table>, steps: seq<Step>, n: nat, pid: nat)
    requires |run| == |steps| + 1 && n <= |steps|
  {
    n > 0 && (HasExited(run, steps, n - 1, pid)
              || (steps[n - 1].Exit? && Runs(run[n - 1], steps[n - 1].c)
                  && run[n - 1].procs[Cur(run[n - 1], steps[n - 1].c)].pid == pid))
  }

  // The process that has to wait for a child of m: m itself, or initproc once m has exited.
  function Guardian(t: Table, m: nat): nat
    requires t.init < |t.procs|
  {
    if m in t.exits then t.procs[t.init].pid else m
  }

  ghost predicate KinOk(t: Table, made: map<nat, nat>, i: nat)
    requires Shape(t) && i < NPROC
  {
    var p := t.procs[i];
    !p.state.UNUSED? && p.parent.Some? ==>
      && p.pid in made && p.parent.value < NPROC
      && t.procs[p.parent.value].pid == Guardian(t, made[p.pid])
  }

  // A child that is still being made.
  ghost predicate EmbryoKin(t: Table, made: map<nat, nat>, i: nat)
    requires Shape(t) && i < NPROC
  {
    t.embryo[i].Some? && t.embryo[i].value < NPROC ==>
      var p := t.procs[t.embryo[i].value];
      p.pid in made && made[p.pid] == t.procs[i].pid
  }

  ghost predicate Family(t: Table, made: map<nat, nat>)
    requires Shape(t)
  {
    && (forall i :: 0 <= i < NPROC ==> KinOk(t, made, i) && EmbryoKin(t, made, i))
    && (forall pid :: pid in made ==> pid < t.nextpid)
  }

  // A step that leaves pids, parents and exits alone, and makes no free slot a process.
  lemma SameKin(t: Table, u: Table, made: map<nat, nat>, i: nat)
    requires Shape(t) && Shape(u) && i < NPROC && u.init == t.init && u.exits == t.exits
    requires forall k :: 0 <= k < NPROC ==> u.procs[k].pid == t.procs[k].pid
    requires u.procs[i].parent == t.procs[i].parent && (t.procs[i].state.UNUSED? ==> u.procs[i].state.UNUSED?)
    requires u.embryo[i] == t.embryo[i] || u.embryo[i].None?
    requires KinOk(t, made, i) && EmbryoKin(t, made, i)
    ensures KinOk(u, made, i) && EmbryoKin(u, made, i)
  {
  }

  lemma QuietKin(t: Table, s: Step, made: map<nat, nat>)
    requires Inv(t) && Family(t, made) && Enabled(t, s) && Inv(Do(t, s))
    requires !s.Alloc? && !s.Link? && !s.Exit? && !(s.Wait? && FirstZombie(t.procs, Cur(t, s.c), 0).Some?)
    ensures Family(Do(t, s), made)
  {
    var u := Do(t, s);
    if (s.Yield? || s.Sleep? || s.Wait? || s.Abandon? || s.Finish?) { CurRuns(t, s.c); }
    hide CpusOk, LogsOk, PidsDistinct, EmbryosDistinct, FirstZombie, FirstPid, HasKids, KinOk, EmbryoKin;
    forall i | 0 <= i < NPROC ensures KinOk(u, made, i) && EmbryoKin(u, made, i) {
      assert SlotOk(t, i);
      SameKin(t, u, made, i);
    }
  }

  lemma AllocKin(t: Table, c: nat, made: map<nat, nat>)
    requires Inv(t) && Family(t, made) && Enabled(t, Alloc(c)) && Inv(Do(t, Alloc(c)))
    ensures Family(Do(t, Alloc(c)), NextMade(t, Alloc(c), made))
  {
    var u, new' := Do(t, Alloc(c)), NextMade(t, Alloc(c), made);
    CurRuns(t, c);
    forall i | 0 <= i < NPROC ensures KinOk(u, new', i) && EmbryoKin(u, new', i) { AllocKinAt(t, c, made, i); }
  }

  lemma AllocKinAt(t: Table, c: nat, made: map<nat, nat>, i: nat)
    requires Inv(t) && Family(t, made) && Enabled(t, Alloc(c)) && Inv(Do(t, Alloc(c))) && i < NPROC
    ensures KinOk(Do(t, Alloc(c)), NextMade(t, Alloc(c), made), i)
    ensures EmbryoKin(Do(t, Alloc(c)), NextMade(t, Alloc(c), made), i)
  {
    var f := FirstUnused(t.procs, 0);
    CurRuns(t, c);
    assert SlotOk(t, i) && KinOk(t, made, i) && EmbryoKin(t, made, i);
    if f.Some? {
      assert SlotOk(t, f.value);
      if t.embryo[i].Some? { assert SlotOk(t, t.embryo[i].value); }
      hide CpusOk, LogsOk, PidsDistinct, EmbryosDistinct, FirstUnused, Family;
    }
  }

  lemma LinkKin(t: Table, c: nat, made: map<nat, nat>)
    requires Inv(t) && Family(t, made) && Enabled(t, Link(c)) && Inv(Do(t, Link(c)))
    ensures Family(Do(t, Link(c)), made)
  {
    var u, j, cur := Do(t, Link(c)), Child(t, c), Cur(t, c);
    CurRuns(t, c);
    assert EmbryoKin(t, made, cur);
    forall i | 0 <= i < NPROC ensures KinOk(u, made, i) && EmbryoKin(u, made, i) {
      assert SlotOk(t, i);
      if i != j { SameKin(t, u, made, i); }
    }
  }

  lemma ReapKin(t: Table, c: nat, made: map<nat, nat>)
    requires Inv(t) && Family(t, made) && Enabled(t, Wait(c)) && Inv(Do(t, Wait(c)))
    requires FirstZombie(t.procs, Cur(t, c), 0).Some?
    ensures Family(Do(t, Wait(c)), made)
  {
    var u, z := Do(t, Wait(c)), FirstZombie(t.procs, Cur(t, c), 0).value;
    hide CpusOk, LogsOk, PidsDistinct, EmbryosDistinct, FirstZombie, HasKids;
    forall i | 0 <= i < NPROC ensures KinOk(u, made, i) && EmbryoKin(u, made, i) {
      assert SlotOk(t, i) && SlotOk(t, z);
      assert KinOk(t, made, i) && EmbryoKin(t, made, i);
    }
  }

  lemma ExitKin(t: Table, c: nat, made: map<nat, nat>)
    requires Inv(t) && Family(t, made) && Enabled(t, Exit(c)) && Inv(Do(t, Exit(c)))
    ensures Family(Do(t, Exit(c)), made)
  {
    var u, cur := Do(t, Exit(c)), Cur(t, c);
    CurRuns(t, c);
    hide CpusOk, LogsOk, PidsDistinct, EmbryosDistinct, Exited;
    forall i: nat | i < NPROC ensures u.procs[i].pid == t.procs[i].pid { ExitedAt(t.procs, cur, t.init, i); }
    forall i | 0 <= i < NPROC ensures KinOk(u, made, i) && EmbryoKin(u, made, i) { ExitKinAt(t, c, made, i); }
  }

  lemma ExitKinAt(t: Table, c: nat, made: map<nat, nat>, i: nat)
    requires Inv(t) && Family(t, made) && Enabled(t, Exit(c)) && Inv(Do(t, Exit(c))) && i < NPROC
    ensures KinOk(Do(t, Exit(c)), made, i) && EmbryoKin(Do(t, Exit(c)), made, i)
  {
    var u, cur := Do(t, Exit(c)), Cur(t, c);
    CurRuns(t, c);
    assert SlotOk(t, i) && SlotOk(t, t.init) && KinOk(t, made, i) && EmbryoKin(t, made, i);
    hide CpusOk, LogsOk, EmbryosDistinct, Exited;
    forall k: nat | k < NPROC ensures u.procs[k].pid == t.procs[k].pid { ExitedAt(t.procs, cur, t.init, k); }
    ExitedAt(t.procs, cur, t.init, i);
    if t.procs[i].parent.Some? {
      assert SlotOk(t, t.procs[i].parent.value);
      if t.procs[i].parent.value != cur { DistinctPid(t, t.procs[i].parent.value, cur); }
    }
  }

  lemma FamilyStep(t: Table, s: Step, made: map<nat, nat>)
    requires Inv(t) && Family(t, made) && Enabled(t, s)
    ensures Inv(Do(t, s)) && Family(Do(t, s), NextMade(t, s, made))
  {
    StepInv(t, s);
    hide Inv, Family, Do, Enabled;
    match s
    case Alloc(c) => AllocKin(t, c, made);
    case Link(c) => LinkKin(t, c, made);
    case Exit(c) => ExitKin(t, c, made);
    case Wait(c) =>
      assert Runs(t, c) by { WaitRuns(t, c); }
      if FirstZombie(t.procs, Cur(t, c), 0).Some? { ReapKin(t, c, made); } else { QuietKin(t, s, made); }
    case _ => QuietKin(t, s, made);
  }

  lemma WaitRuns(t: Table, c: nat)
    requires Enabled(t, Wait(c))
    ensures Runs(t, c)
  {
  }

  lemma ExitsNext(t: Table, s: Step, pid: nat)
    requires Enabled(t, s)
    ensures pid in Do(t, s).exits <==> pid in t.exits || (s.Exit? && t.procs[Cur(t, s.c)].pid == pid)
  {
  }

  lemma {:induction false} RunFamily(run: seq<Table>, steps: seq<Step>, n: nat)
    requires IsRun(run, steps) && n <= |steps|
    ensures Inv(run[n]) && Family(run[n], Made(run, steps, n))
    ensures forall pid :: pid in run[n].exits <==> HasExited(run, steps, n, pid)
    ensures run[n].init == 0 && run[n].procs[0].pid == 1
  {
    if n == 0 {
      InitialInv(run[0]);
    } else {
      RunFamily(run, steps, n - 1);
      var t, s := run[n - 1], steps[n - 1];
      assert run[n - 1 + 1] == Do(t, s);
      FamilyStep(t, s, Made(run, steps, n - 1));
      InitStays(t, s);
      hide Inv, Do, Family;
      forall pid ensures pid in run[n].exits <==> HasExited(run, steps, n, pid) {
        if 0 <= pid { ExitsNext(t, s, pid); }
      }
    }
  }

  lemma InitStays(t: Table, s: Step)
    requires Inv(t) && Enabled(t, s) && Inv(Do(t, s))
    ensures Do(t, s).init == t.init && Do(t, s).procs[t.init].pid == t.procs[t.init].pid
  {
    assert SlotOk(t, t.init);
    if s.Exit? { ExitedAt(t.procs, Cur(t, s.c), t.init, t.init); }
  }

  // In every run: the parent of a process is the one that made it, for as long as that one has not exited,
  // and initproc, whose pid is 1, from then on.
  lemma ParentIsMaker(run: seq<Table>, steps: seq<Step>, n: nat, i: nat)
    requires IsRun(run, steps) && n <= |steps| && i < NPROC
    ensures var t, made := run[n], Made(run, steps, n);
      && |t.procs| == NPROC
      && (!t.procs[i].state.UNUSED? && t.procs[i].parent.Some? ==>
            && t.procs[i].pid in made && t.procs[i].parent.value < NPROC
            && t.procs[t.procs[i].parent.value].pid
                 == if HasExited(run, steps, n, made[t.procs[i].pid]) then 1 else made[t.procs[i].pid])
  {
    RunFamily(run, steps, n);
    assert KinOk(run[n], Made(run, steps, n), i);
  }

  // A child that a wait returns had exited, and was made by the process that waits or, if its maker has
  // exited, is returned to initproc: nobody else reaps it.
  lemma ReapedByGuardian(run: seq<Table>, steps: seq<Step>, n: nat)
    requires IsRun(run, steps) && n < |steps| && run[n + 1].reaps != run[n].reaps
    ensures steps[n].Wait? && Runs(run[n], steps[n].c)
    ensures var made, me := Made(run, steps, n), run[n].procs[Cur(run[n], steps[n].c)].pid;
      exists pid :: && run[n + 1].reaps == run[n].reaps + [pid] && HasExited(run, steps, n, pid) && pid in made
                    && me == if HasExited(run, steps, n, made[pid]) then 1 else made[pid]
  {
    RunFamily(run, steps, n);
    var t, s := run[n], steps[n];
    assert run[n + 1] == Do(t, s);
    var z := FirstZombie(t.procs, Cur(t, s.c), 0).value;
    assert SlotOk(t, z) && KinOk(t, Made(run, steps, n), z);
    var pid := t.procs[z].pid;
    assert run[n + 1].reaps == run[n].reaps + [pid] && pid in t.exits;
  }

  lemma {:induction false} NoneBefore(ps: seq<Process>, cur: nat, k: nat, i: nat)
    requires k <= i < |ps| && (FirstZombie(ps, cur, k).Some? ==> i < FirstZombie(ps, cur, k).value)
    ensures !(ps[i].state.ZOMBIE? && ps[i].parent == Some(cur))
    decreases i - k
  {
    if k < i { NoneBefore(ps, cur, k + 1, i); }
  }

  // One wait of a process with a zombie child in slot k and none below slot lo: it reaps slot k, or one in
  // between, and can be called again.
  lemma WaitOnce(t: Table, c: nat, k: nat, lo: nat)
    requires Inv(t) && Enabled(t, Wait(c)) && ZombieChild(t, Cur(t, c), k) && lo <= k
    requires forall i: nat :: i < lo ==> !ZombieChild(t, Cur(t, c), i)
    ensures var u, z := Do(t, Wait(c)), FirstZombie(t.procs, Cur(t, c), 0);
      && Inv(u) && Enabled(u, Wait(c)) && Cur(u, c) == Cur(t, c) && z.Some? && lo <= z.value <= k
      && (forall i: nat :: i < z.value + 1 ==> !ZombieChild(u, Cur(u, c), i))
      && |u.procs| == |t.procs|
      && u.procs[z.value] == t.procs[z.value].(state := UNUSED, pid := 0, parent := None, killed := false)
      && (z.value != k ==> u.procs[k] == t.procs[k]) && u.reaps == t.reaps + [t.procs[z.value].pid]
  {
    StepInv(t, Wait(c));
    var cur, z := Cur(t, c), FirstZombie(t.procs, Cur(t, c), 0);
    if z.None? || k < z.value { NoneBefore(t.procs, cur, 0, k); }
    assert ZombieChild(t, cur, z.value);
    var u := Do(t, Wait(c));
    forall i: nat | i < z.value + 1 ensures !ZombieChild(u, cur, i) {
      if i < z.value { NoneBefore(t.procs, cur, 0, i); }
    }
  }

  // And the guardian does reap it: of a process with a zombie child in slot k, at most k + 1 calls of wait
  // return its pid.
  lemma {:induction false} ZombieIsReaped(t: Table, c: nat, k: nat, lo: nat) returns (ts: seq<Table>)
    requires Inv(t) && Enabled(t, Wait(c)) && ZombieChild(t, Cur(t, c), k) && lo <= k
    requires forall i: nat :: i < lo ==> !ZombieChild(t, Cur(t, c), i)
    ensures 1 < |ts| <= k - lo + 2 && ts[0] == t
    ensures forall j :: 0 <= j < |ts| - 1 ==> Enabled(ts[j], Wait(c)) && ts[j + 1] == Do(ts[j], Wait(c))
    ensures var u := ts[|ts| - 1];
      && k < |t.procs| == |u.procs| && u.procs[k].state.UNUSED?
      && t.procs[k].pid in u.reaps && t.procs[k].pid !in t.reaps
    decreases k - lo
  {
    WaitOnce(t, c, k, lo);
    assert SlotOk(t, k);
    hide Inv, SlotOk;
    var u, z := Do(t, Wait(c)), FirstZombie(t.procs, Cur(t, c), 0).value;
    hide Do, Enabled, FirstZombie;
    if z == k {
      ts := [t, u];
      assert u.reaps[|t.reaps|] == t.procs[k].pid;
    } else {
      var rest := ZombieIsReaped(u, c, k, z + 1);
      ts := [t] + rest;
      forall j | 0 <= j < |ts| - 1 ensures Enabled(ts[j], Wait(c)) && ts[j + 1] == Do(ts[j], Wait(c)) {
        if j > 0 { assert ts[j] == rest[j - 1] && ts[j + 1] == rest[j]; }
      }
    }
  }

  // ---------------------------------------------------------------- fork, kill, sleep

  // A fork that succeeds: allocproc finds a slot, the parent is set, the child becomes RUNNABLE. The child
  // is a new process, its parent is the caller, and the caller and everybody else are as they were.
  lemma ForkMakesChild(t: Table, c: nat)
    requires Inv(t) && Enabled(t, Alloc(c)) && FirstUnused(t.procs, 0).Some?
    ensures var a, k := Do(t, Alloc(c)), FirstUnused(t.procs, 0).value;
      && Enabled(a, Link(c)) && Enabled(Do(a, Link(c)), Finish(c))
      && var u := Do(Do(a, Link(c)), Finish(c));
         && |u.procs| == |t.procs| && u.cpus == t.cpus && u.embryo == t.embryo
         && u.procs[k] == t.procs[k].(state := RUNNABLE, pid := t.nextpid, parent := Some(Cur(t, c)))
         && (forall i :: 0 <= i < NPROC && i != k ==> u.procs[i] == t.procs[i] && t.procs[i].pid != t.nextpid)
  {
    var k := FirstUnused(t.procs, 0).value;
    assert SlotOk(t, k);
    forall i | 0 <= i < NPROC ensures t.procs[i].pid != t.nextpid { assert SlotOk(t, i); }
    assert t.embryo[Cur(t, c) := Some(k)][Cur(t, c) := None] == t.embryo;
  }

  // kill marks the process that has the pid, and nobody else, and leaves it not asleep.
  lemma KillMarks(t: Table, pid: nat, i: nat)
    requires Inv(t) && i < NPROC && 0 < pid
    ensures var p, q := t.procs[i], Do(t, Kill(pid)).procs[i];
      if p.pid == pid then
        q == p.(killed := true, state := q.state)
        && (if p.state.SLEEPING? then q.state.RUNNABLE? else q.state == p.state)
      else q == p
  {
    var k := FirstPid(t.procs, pid, 0);
    if t.procs[i].pid == pid && k.value != i { DistinctPid(t, i, k.value); }
  }

  // A slot that wait has reaped holds no mark, and allocproc sets none.
  lemma NewIsUnmarked(t: Table, c: nat, u: Table, d: nat)
    requires Inv(t) && Enabled(t, Wait(c)) && FirstZombie(t.procs, Cur(t, c), 0).Some?
    requires Enabled(u, Alloc(d)) && FirstUnused(u.procs, 0) == FirstZombie(t.procs, Cur(t, c), 0)
    requires var k := FirstUnused(u.procs, 0).value; |u.procs| == NPROC && u.procs[k] == Do(t, Wait(c)).procs[k]
    ensures var p := Do(u, Alloc(d)).procs[FirstUnused(u.procs, 0).value];
      p == Process(EMBRYO, u.nextpid, None, p.chan, false)
  {
  }

  // Whoever sleeps on an address is runnable after a wakeup on it, and after no other.
  lemma WakeupWakes(t: Table, c: nat, n: nat, m: nat)
    requires Inv(t) && Enabled(t, Sleep(c, n))
    ensures var i, u := Cur(t, c), Do(t, Sleep(c, n));
      && u.procs[i].state.SLEEPING? && u.cpus[c].None?
      && (if m == n then Do(u, Wakeup(m)).procs[i].state.RUNNABLE? else Do(u, Wakeup(m)).procs[i].state.SLEEPING?)
  {
    CurRuns(t, c);
  }
}
