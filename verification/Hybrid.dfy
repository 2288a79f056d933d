/** The hybrid scheduler (proc.c and trap.c of g17hybrid): shortest burst first, with a quantum of two clock
    ticks that takes two off the burst. */
module Hybrid {
  import opened Wrappers

  const INT_MAX: int := 0x7fff_ffff
  const INT_MIN: int := -0x8000_0000
  const QUANTA: nat := 2

  datatype State = Runnable | Running | Other

  datatype Job = Job(state: State, pid: nat, burst: int, ticks: nat)

  // The order of dispatch: burst time, then process id.
  predicate Less(a: Job, b: Job) {
    a.burst < b.burst || (a.burst == b.burst && a.pid < b.pid)
  }

  // What scheduler is given: burst times are ints, and runnable processes have different ids.
  ghost predicate Table(ps: seq<Job>) {
    && (forall i :: 0 <= i < |ps| ==> ps[i].burst <= INT_MAX)
    && (forall i, j :: 0 <= i < j < |ps| && ps[i].state.Runnable? && ps[j].state.Runnable? ==> ps[i].pid != ps[j].pid)
  }

  // Job i is the least of the runnable jobs.
  ghost predicate IsLeast(ps: seq<Job>, i: nat) {
    i < |ps| && ps[i].state.Runnable? && forall j :: 0 <= j < |ps| && ps[j].state.Runnable? && j != i ==>
      Less(ps[i], ps[j])
  }

  ghost predicate FirstRunnable(ps: seq<Job>, i: nat) {
    i < |ps| && ps[i].state.Runnable? && forall j :: 0 <= j < i ==> !ps[j].state.Runnable?
  }

  lemma LeastIsUnique(ps: seq<Job>, i: nat, j: nat)
    requires IsLeast(ps, i) && IsLeast(ps, j)
    ensures i == j
  {
    assert i != j ==> Less(ps[i], ps[j]);
  }

  ghost predicate NoneRunnable(ps: seq<Job>) {
    forall i :: 0 <= i < |ps| ==> !ps[i].state.Runnable?
  }

  datatype Choice = Chosen(i: nat) | Idle | NullDereference

  // dec_burstTime.
  function Dec(burst: int): int {
    if burst < 0 then -1 else burst - QUANTA
  }

  function AfterQuanta(burst: int, k: nat): int {
    if k == 0 then burst else Dec(AfterQuanta(burst, k - 1))
  }

  // The burst time n counts n/2 + 1 quanta, is negative from then on, and never sinks below -2.
  lemma {:induction false} BurstCounts(n: nat, k: nat)
    ensures k <= n / QUANTA ==> AfterQuanta(n, k) == n - QUANTA * k >= 0
    ensures k > n / QUANTA ==> AfterQuanta(n, k) == -1 || AfterQuanta(n, k) == -2
    ensures k > n / QUANTA + 1 ==> AfterQuanta(n, k) == -1
  {
    if k > 0 { BurstCounts(n, k - 1); }
  }

  // Exactly n/2 + 1 quanta: not one fewer.
  lemma BurstLasts(n: nat, k: nat)
    ensures AfterQuanta(n, k) < 0 <==> n / QUANTA + 1 <= k
  {
    BurstCounts(n, k);
  }

  // Clock ticks for the running process: the new job, and whether it gives up the CPU.
  function Tick(p: Job): (Job, bool) {
    var q := p.(ticks := p.ticks + 1);
    if q.ticks == QUANTA then (q.(burst := Dec(q.burst), ticks := 0, state := Runnable), true) else (q, false)
  }

  // From its dispatch a process runs for two ticks, no more and no fewer.
  lemma QuantumIsTwoTicks(p: Job)
    requires p.ticks == 0
    ensures !Tick(p).1 && Tick(Tick(p).0).1
    ensures Tick(Tick(p).0).0 == p.(burst := Dec(p.burst), state := Runnable)
  {
  }

  lemma DifferentPids(ps: seq<Job>, i: nat, j: nat)
    requires Table(ps) && i < |ps| && j < |ps| && i != j && ps[i].state.Runnable? && ps[j].state.Runnable?
    ensures ps[i].pid != ps[j].pid
  {
    assert i < j || j < i;
  }

  // ---------------------------------------------------------------- runs

  datatype Machine = Machine(table: seq<Job>, current: Option<nat>)

  // One CPU. Count, CountDown, SetBurst, Yield and Block are the running process's own: the system calls
  // inc_cpucounter and dec_burstTime, the two halves of set_burst_time, and sleep or exit. Wake makes a
  // process runnable (wakeup, kill, the end of fork), Alloc is allocproc, Reap the end of wait.
  datatype Event =
    | Dispatch(i: nat)
    | ClockTick
    | Count
    | CountDown
    | SetBurst(burst: int)
    | Yield
    | Block
    | Wake(j: nat)
    | Alloc(j: nat, pid: nat)
    | Reap(j: nat)

  // The selection loop reads the pid of a job it has not chosen yet.
  ghost predicate Crashes(ps: seq<Job>) {
    exists i: nat :: FirstRunnable(ps, i) && ps[i].burst == INT_MAX
  }

  ghost predicate Inv(m: Machine) {
    && (forall i :: 0 <= i < |m.table| ==> INT_MIN <= m.table[i].burst <= INT_MAX)
    && (forall i, j :: 0 <= i < j < |m.table| && m.table[i].pid == m.table[j].pid ==> m.table[i].pid == 0)
    && (forall i :: 0 <= i < |m.table| && !m.table[i].state.Other? ==> m.table[i].pid != 0)
    && (forall i :: 0 <= i < |m.table| ==> (m.table[i].state.Running? <==> m.current == Some(i)))
    && (m.current.Some? ==> m.current.value < |m.table|)
  }

  // A slot whose process neither runs nor could.
  predicate Resting(m: Machine, j: nat) {
    j < |m.table| && m.table[j].state.Other?
  }

  ghost predicate Enabled(m: Machine, e: Event) {
    match e
    case Dispatch(i) => m.current.None? && IsLeast(m.table, i) && !Crashes(m.table)
    case ClockTick => m.current.Some? ==> m.current.value < |m.table|
    case Wake(j) => Resting(m, j) && m.table[j].pid != 0
    case Alloc(j, pid) => Resting(m, j) && pid != 0 && forall k :: 0 <= k < |m.table| ==> m.table[k].pid != pid
    case Reap(j) => Resting(m, j)
    case SetBurst(burst) => m.current.Some? && m.current.value < |m.table| && INT_MIN <= burst <= INT_MAX
    case _ => m.current.Some? && m.current.value < |m.table|
  }

  function Put(m: Machine, i: nat, p: Job): Machine
    requires i < |m.table|
  {
    m.(table := m.table[i := p])
  }

  ghost function Step(m: Machine, e: Event): Machine
    requires Enabled(m, e)
  {
    match e
    case Dispatch(i) => Machine(m.table[i := m.table[i].(state := Running, ticks := 0)], Some(i))
    case ClockTick =>
      if m.current.None? then m
      else
        var t := Tick(m.table[m.current.value]);
        Machine(m.table[m.current.value := t.0], if t.1 then None else m.current)
    case Wake(j) => Put(m, j, m.table[j].(state := Runnable))
    case Alloc(j, pid) => Put(m, j, m.table[j].(pid := pid, burst := 0))
    case Reap(j) => Put(m, j, m.table[j].(pid := 0))
    case Count => var p := m.table[m.current.value]; Put(m, m.current.value, p.(ticks := p.ticks + 1))
    case CountDown => var p := m.table[m.current.value]; Put(m, m.current.value, p.(burst := Dec(p.burst)))
    case SetBurst(burst) => Put(m, m.current.value, m.table[m.current.value].(burst := burst))
    case Yield => Put(m, m.current.value, m.table[m.current.value].(state := Runnable)).(current := None)
    case Block => Put(m, m.current.value, m.table[m.current.value].(state := Other)).(current := None)
  }

  lemma StepInv(m: Machine, e: Event)
    requires Inv(m) && Enabled(m, e)
    ensures Inv(Step(m, e))
  {
    hide Crashes;
  }

  ghost predicate IsRun(run: seq<Machine>, es: seq<Event>) {
    && |run| == |es| + 1 && Inv(run[0])
    && (forall k {:trigger es[k]} :: 0 <= k < |es| ==> Enabled(run[k], es[k]) && run[k + 1] == Step(run[k], es[k]))
  }

  lemma {:induction false} RunInv(run: seq<Machine>, es: seq<Event>, n: nat)
    requires IsRun(run, es) && n < |run|
    ensures Inv(run[n]) && Table(run[n].table)
  {
    if n > 0 {
      RunInv(run, es, n - 1);
      assert run[n - 1 + 1] == Step(run[n - 1], es[n - 1]);
      StepInv(run[n - 1], es[n - 1]);
    }
  }

  // What a process that uses its whole quantum may meet: it neither blocks nor resets its burst, though it
  // may count it down.
  predicate InQuantum(e: Event) {
    !e.Dispatch? && !e.SetBurst? && !e.Yield? && !e.Block?
  }

  // The run is a dispatch of job i and what happens up to the next dispatch.
  ghost predicate OneQuantum(run: seq<Machine>, es: seq<Event>, i: nat) {
    IsRun(run, es) && |es| > 0 && es[0] == Dispatch(i) && forall k :: 1 <= k < |es| ==> InQuantum(es[k])
  }

  // How often the running process has called dec_burstTime.
  function Calls(es: seq<Event>): nat {
    if es == [] then 0 else Calls(es[..|es| - 1]) + if es[|es| - 1].CountDown? then 1 else 0
  }

  // From ps on, job i has been dispatched, and at most the jobs in `woken` have become runnable.
  ghost predicate Since(ps: seq<Job>, m: Machine, i: nat, woken: seq<Event>) {
    && |m.table| == |ps| && i < |ps|
    && (m.current == None || m.current == Some(i))
    && (m.current == Some(i) ==>
          m.table[i] == ps[i].(state := Running, burst := AfterQuanta(ps[i].burst, Calls(woken)),
            ticks := m.table[i].ticks))
    && (m.current == None ==>
          m.table[i] == ps[i].(state := Runnable, burst := AfterQuanta(ps[i].burst, Calls(woken) + 1), ticks := 0))
    && (forall j: nat :: j < |ps| && j != i && m.table[j].state.Runnable? && Wake(j) !in woken ==> m.table[j] == ps[j])
  }

  lemma SinceStep(ps: seq<Job>, m: Machine, i: nat, woken: seq<Event>, e: Event)
    requires Since(ps, m, i, woken) && Enabled(m, e) && InQuantum(e)
    ensures Since(ps, Step(m, e), i, woken + [e])
  {
    hide Crashes;
    assert (woken + [e])[..|woken|] == woken;
    assert forall w :: w in woken + [e] <==> w in woken || w == e;
  }

  lemma {:induction false} SinceDispatch(run: seq<Machine>, es: seq<Event>, i: nat, n: nat)
    requires OneQuantum(run, es, i) && 1 <= n < |run|
    ensures Since(run[0].table, run[n], i, es[..n])
  {
    assert run[n - 1 + 1] == Step(run[n - 1], es[n - 1]);
    if n == 1 {
      assert es[..1][..0] == [] && es[..1][0] == Dispatch(i);
    } else {
      SinceDispatch(run, es, i, n - 1);
      SinceStep(run[0].table, run[n - 1], i, es[..n - 1], es[n - 1]);
      assert es[..n] == es[..n - 1] + [es[n - 1]];
    }
  }

  // No process that was woken comes before job i.
  ghost predicate Unbeaten(qs: seq<Job>, woken: seq<Event>, i: nat)
    requires i < |qs|
  {
    forall j: nat :: j < |qs| && Wake(j) in woken && qs[j].state.Runnable? ==> !Less(qs[j], qs[i])
  }

  lemma LeastAgain(ps: seq<Job>, m: Machine, i: nat, woken: seq<Event>)
    requires Table(m.table) && IsLeast(ps, i) && ps[i].burst >= 0 && Since(ps, m, i, woken) && m.current.None?
    ensures IsLeast(m.table, i) <==> Unbeaten(m.table, woken, i)
  {
    var qs := m.table;
    BurstCounts(ps[i].burst, Calls(woken) + 1);
    assert qs[i].burst < ps[i].burst;
    hide AfterQuanta;
    forall j: nat | j < |qs| && j != i && qs[j].state.Runnable? && Wake(j) !in woken ensures Less(qs[i], qs[j]) {
      assert Less(ps[i], ps[j]);
    }
    forall j: nat | j < |qs| && j != i && qs[j].state.Runnable? ensures Less(qs[i], qs[j]) <==> !Less(qs[j], qs[i]) {
      DifferentPids(qs, i, j);
    }
  }

  // A process dispatched with time left that uses its quantum comes back with its burst counted down, once
  // for the quantum and once for each time it asked for that itself, and is the next to be dispatched
  // exactly unless a process that was woken meanwhile comes before it.
  lemma RunsOn(run: seq<Machine>, es: seq<Event>, i: nat)
    requires OneQuantum(run, es, i) && i < |run[0].table| && run[0].table[i].burst >= 0 && run[|es|].current.None?
    ensures var ps, m := run[0].table, run[|es|];
      && i < |m.table|
      && m.table[i] == ps[i].(state := Runnable, burst := AfterQuanta(ps[i].burst, Calls(es) + 1), ticks := 0)
      && (CountDown !in es ==> m.table[i].burst == ps[i].burst - QUANTA)
      && (IsLeast(m.table, i) <==> Unbeaten(m.table, es, i))
      && (forall k :: Enabled(m, Dispatch(k)) ==> (k == i <==> Unbeaten(m.table, es, i)))
  {
    hide Inv, IsLeast, Crashes, Table, Step, Calls, Unbeaten, Since, Enabled, AfterQuanta, InQuantum;
    SinceDispatch(run, es, i, |es|);
    RunInv(run, es, |es|);
    FirstIsLeast(run, es, i);
    assert es[..|es|] == es;
    QuantumResult(run[0].table, run[|es|], es, i);
  }

  lemma QuantumResult(ps: seq<Job>, m: Machine, es: seq<Event>, i: nat)
    requires Table(m.table) && IsLeast(ps, i) && i < |ps| && ps[i].burst >= 0 && Since(ps, m, i, es) && m.current.None?
    ensures i < |m.table|
      && m.table[i] == ps[i].(state := Runnable, burst := AfterQuanta(ps[i].burst, Calls(es) + 1), ticks := 0)
      && (CountDown !in es ==> m.table[i].burst == ps[i].burst - QUANTA)
      && (IsLeast(m.table, i) <==> Unbeaten(m.table, es, i))
      && (forall k :: Enabled(m, Dispatch(k)) ==> (k == i <==> Unbeaten(m.table, es, i)))
  {
    hide IsLeast, Crashes, Table, Calls, Unbeaten;
    LeastAgain(ps, m, i, es);
    if CountDown !in es { NoCalls(es); }
    assert AfterQuanta(ps[i].burst, 1) == Dec(AfterQuanta(ps[i].burst, 0));
    forall k | Enabled(m, Dispatch(k)) ensures k == i <==> Unbeaten(m.table, es, i) {
      if IsLeast(m.table, i) { LeastIsUnique(m.table, i, k); }
    }
  }

  lemma FirstIsLeast(run: seq<Machine>, es: seq<Event>, i: nat)
    requires OneQuantum(run, es, i)
    ensures IsLeast(run[0].table, i)
  {
    hide Inv, IsLeast, Crashes;
    assert Enabled(run[0], es[0]);
  }

  lemma {:induction false} NoCalls(es: seq<Event>)
    requires CountDown !in es
    ensures Calls(es) == 0
  {
    if es != [] {
      assert CountDown !in es[..|es| - 1];
      NoCalls(es[..|es| - 1]);
    }
  }

  // The increments of the running process's tick count: by the clock, or by itself.
  function Counted(es: seq<Event>): seq<Event> {
    if es == [] then []
    else Counted(es[..|es| - 1]) + if es[|es| - 1].ClockTick? || es[|es| - 1].Count? then [es[|es| - 1]] else []
  }

  // The check for the end of the quantum is an equality.
  predicate QuantumOver(es: seq<Event>) {
    |Counted(es)| >= QUANTA && Counted(es)[QUANTA - 1].ClockTick?
  }

  lemma {:induction false} TicksCounted(run: seq<Machine>, es: seq<Event>, i: nat, n: nat)
    requires OneQuantum(run, es, i) && 1 <= n < |run|
    ensures run[n].current.None? <==> QuantumOver(es[..n])
    ensures run[n].current == Some(i) ==> i < |run[n].table| && run[n].table[i].ticks == |Counted(es[..n])|
  {
    assert run[n - 1 + 1] == Step(run[n - 1], es[n - 1]);
    assert es[..n][..n - 1] == es[..n - 1];
    if n == 1 {
      assert es[..0] == [];
    } else {
      TicksCounted(run, es, i, n - 1);
      SinceDispatch(run, es, i, n - 1);
    }
  }

  // A dispatched process that neither blocks nor resets its burst gives up the CPU exactly when the second
  // increment of its count is a clock tick. So two ticks are its quantum if it leaves inc_cpucounter alone;
  // if that makes the second increment, no later tick ever ends the quantum.
  lemma QuantumEnds(run: seq<Machine>, es: seq<Event>, i: nat)
    requires OneQuantum(run, es, i)
    ensures run[|es|].current.None? <==> QuantumOver(es)
    ensures Count !in es ==> (QuantumOver(es) <==> |Counted(es)| >= QUANTA)
  {
    TicksCounted(run, es, i, |es|);
    assert es[..|es|] == es;
    if Count !in es { OnlyTicks(es); }
  }

  lemma {:induction false} OnlyTicks(es: seq<Event>)
    requires Count !in es
    ensures forall k :: 0 <= k < |Counted(es)| ==> Counted(es)[k].ClockTick?
  {
    if es != [] {
      assert Count !in es[..|es| - 1];
      OnlyTicks(es[..|es| - 1]);
    }
  }

  // Every dispatch can be followed by a whole quantum, whatever tick count an earlier one left behind.
  lemma QuantumRun(m: Machine, i: nat) returns (run: seq<Machine>, es: seq<Event>)
    requires Inv(m) && Enabled(m, Dispatch(i))
    ensures run != [] && run[0] == m && es == [Dispatch(i), ClockTick, ClockTick] && OneQuantum(run, es, i)
    ensures run[3].current.None?
    ensures run[3].table == m.table[i := m.table[i].(burst := Dec(m.table[i].burst), ticks := 0)]
  {
    hide Crashes, Inv;
    var a := Step(m, Dispatch(i));
    var b := Step(a, ClockTick);
    run, es := [m, a, b, Step(b, ClockTick)], [Dispatch(i), ClockTick, ClockTick];
  }

  lemma {:induction false} CountedPrefix(es: seq<Event>, n: nat)
    requires n <= |es|
    ensures Counted(es[..n]) <= Counted(es)
    decreases |es|
  {
    if n < |es| {
      CountedPrefix(es[..|es| - 1], n);
      assert es[..|es| - 1][..n] == es[..n];
    } else {
      assert es[..n] == es;
    }
  }

  // A process that calls inc_cpucounter after its first tick keeps the CPU for as long as it neither blocks
  // nor resets its burst, however many ticks come.
  lemma CountEscapes(run: seq<Machine>, es: seq<Event>, i: nat)
    requires OneQuantum(run, es, i) && |es| >= 3 && es[1] == ClockTick && es[2] == Count
    ensures run[|es|].current == Some(i)
  {
    var fs := es[..3];
    assert fs[..2][..1][..0] == [] && fs[..2][..1] == fs[..1] && es[0] == Dispatch(i);
    assert Counted(fs[..1]) == [];
    assert Counted(fs[..2]) == [ClockTick];
    assert Counted(fs) == [ClockTick, Count];
    CountedPrefix(es, 3);
    assert Counted(es)[1] == Count;
    QuantumEnds(run, es, i);
    SinceDispatch(run, es, i, |es|);
  }

  // Such a run, with a tick that should have been the last.
  lemma EscapeRun(m: Machine, i: nat) returns (run: seq<Machine>, es: seq<Event>)
    requires Inv(m) && Enabled(m, Dispatch(i))
    ensures run != [] && run[0] == m && es == [Dispatch(i), ClockTick, Count, ClockTick] && OneQuantum(run, es, i)
    ensures run[4].current == Some(i)
  {
    hide Crashes, Inv;
    var a := Step(m, Dispatch(i));
    var b := Step(a, ClockTick);
    var c := Step(b, Count);
    run, es := [m, a, b, c, Step(c, ClockTick)], [Dispatch(i), ClockTick, Count, ClockTick];
  }

  // The null dereference is within reach: a process dispatched from the first runnable slot that sets its
  // burst to INT_MAX has the scheduler crash on its yield.
  lemma BurstOfIntMaxCrashes(m: Machine, i: nat) returns (run: seq<Machine>, es: seq<Event>)
    requires Inv(m) && Enabled(m, Dispatch(i)) && FirstRunnable(m.table, i)
    ensures IsRun(run, es) && run[0] == m && es == [Dispatch(i), SetBurst(INT_MAX), Yield]
    ensures Inv(run[3]) && run[3].current.None? && Crashes(run[3].table)
  {
    var a := Step(m, Dispatch(i));
    var b := Step(a, SetBurst(INT_MAX));
    run, es := [m, a, b, Step(b, Yield)], [Dispatch(i), SetBurst(INT_MAX), Yield];
    StepInv(m, es[0]);
    StepInv(a, es[1]);
    StepInv(b, es[2]);
    assert FirstRunnable(run[3].table, i);
  }

  class Scheduler {
    const proc: array<Job>
    var current: Option<nat>   // `c->proc`

    function V(): Machine
      reads this, proc
    {
      Machine(proc[..], current)
    }

    constructor (n: nat)
      ensures fresh(proc) && proc.Length == n && current.None?
      ensures Inv(V()) && forall i :: 0 <= i < n ==> proc[i] == Job(Other, 0, 0, 0)
    {
      proc := new Job[n](_ => Job(Other, 0, 0, 0));
      current := None;
    }

    // The selection loop. `lowest_bt->pid` is read before the burst times are compared, so a first runnable
    // process whose burst time is INT_MAX dereferences null.
    method Select() returns (r: Choice)
      requires Table(proc[..])
      ensures r.Chosen? ==> IsLeast(proc[..], r.i)
      // the shortest burst, and among equals the smallest pid
      ensures r.Chosen? ==>
        && r.i < proc.Length && proc[r.i].state.Runnable?
        && forall j :: 0 <= j < proc.Length && proc[j].state.Runnable? && j != r.i ==>
          proc[r.i].burst < proc[j].burst || (proc[r.i].burst == proc[j].burst && proc[r.i].pid < proc[j].pid)
      ensures r.Idle? <==> NoneRunnable(proc[..])
      ensures r.NullDereference? <==> Crashes(proc[..])
    {
      var lowest: Option<nat>, min := None, INT_MAX;
      ghost var ps := proc[..];
      var p := 0;
      while p < proc.Length
        invariant p <= proc.Length
        invariant lowest.None? ==> forall j :: 0 <= j < p ==> !ps[j].state.Runnable?
        invariant lowest.Some? ==> LeastBelow(ps, lowest.value, p) && min == ps[lowest.value].burst < INT_MAX
        invariant lowest.None? ==> min == INT_MAX
        invariant lowest.Some? ==> exists i: nat :: i < p && FirstRunnable(ps, i) && ps[i].burst < INT_MAX
      {
        if proc[p].state == Runnable {
          if proc[p].burst < min {
            if lowest.None? { assert FirstRunnable(ps, p); }
            lowest, min := Some(p), proc[p].burst;
          } else if lowest.None? {
            assert FirstRunnable(ps, p) && ps[p].burst == INT_MAX;
            assert !NoneRunnable(ps) && ps == proc[..];
            return NullDereference;
          } else if proc[p].pid < proc[lowest.value].pid && proc[p].burst == min {
            lowest := Some(p);
          } else {
            DifferentPids(ps, lowest.value, p);
          }
        }
        p := p + 1;
      }
      r := if lowest.Some? then Chosen(lowest.value) else Idle;
    }

    // One round of the scheduler's loop, up to the switch; `crashed` tells of the null dereference.
    method Schedule() returns (crashed: bool)
      requires Table(proc[..]) && current.None?
      modifies this, proc
      ensures crashed <==> Crashes(old(proc[..]))
      ensures crashed || current.None? ==> proc[..] == old(proc[..])
      ensures !crashed ==> (current.None? <==> NoneRunnable(old(proc[..])))
      ensures !crashed && current.Some? ==>
        && Enabled(old(V()), Dispatch(current.value)) && V() == Step(old(V()), Dispatch(current.value))
    {
      var p := Select();
      if p.Chosen? {
        current := Some(p.i);
        proc[p.i] := proc[p.i].(state := Running, ticks := 0);
      }
      crashed := p.NullDereference?;
    }

    // The quantum check of trap on a timer interrupt. Interrupts are off from the trap to the switch.
    method TimerTick()
      requires current.Some? ==> current.value < proc.Length && proc[current.value].state.Running?
      modifies this, proc
      ensures V() == Step(old(V()), ClockTick)
    {
      if current.None? { return; }
      var i := current.value;
      var res := IncCpucounter();
      if res == QUANTA {
        DecBurst();
        proc[i] := proc[i].(ticks := 0);
        YieldCpu();
      }
    }

    // inc_cpucounter, which is also a system call.
    method IncCpucounter() returns (res: nat)
      requires current.Some? && current.value < proc.Length
      modifies proc
      ensures V() == Step(old(V()), Count) && res == proc[current.value].ticks
    {
      var i := current.value;
      res := proc[i].ticks + 1;
      proc[i] := proc[i].(ticks := res);
    }

    // set_burst_time up to its release of the lock; a yield follows.
    method SetBurstTime(bt: int)
      requires current.Some? && current.value < proc.Length && INT_MIN <= bt <= INT_MAX
      modifies proc
      ensures V() == Step(old(V()), SetBurst(bt)) && proc[current.value].burst == bt
    {
      var i := current.value;
      proc[i] := proc[i].(burst := bt);
    }

    // yield, up to the switch back to the scheduler.
    method YieldCpu()
      requires current.Some? && current.value < proc.Length
      modifies this, proc
      ensures V() == Step(old(V()), Yield)
    {
      var i := current.value;
      proc[i] := proc[i].(state := Runnable);
      current := None;
    }

    // dec_burstTime, which is also a system call.
    method DecBurst()
      requires current.Some? && current.value < proc.Length
      modifies proc
      ensures V() == Step(old(V()), CountDown)
    {
      var i := current.value;
      if proc[i].burst < 0 {
        proc[i] := proc[i].(burst := -1);
      } else {
        proc[i] := proc[i].(burst := proc[i].burst - QUANTA);
      }
    }
  }

  ghost predicate LeastBelow(ps: seq<Job>, i: nat, p: nat) {
    i < p <= |ps| && ps[i].state.Runnable? && forall j :: 0 <= j < p && ps[j].state.Runnable? && j != i ==>
      Less(ps[i], ps[j])
  }
}
