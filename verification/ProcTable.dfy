/** The process table as an object (proc.c). Each method runs under ptable.lock, or is the one unlocked
    write of fork that it is named for; `c` is the CPU it runs on. */
module ProcTable {
  import opened Wrappers
  import opened Proc

  class ProcessTable {
    const proc: array<Process>
    const cpu: array<Option<nat>>
    const initproc: nat
    var nextpid: nat
    ghost var embryo: seq<Option<nat>>
    ghost var exits: seq<nat>
    ghost var reaps: seq<nat>

    ghost function Value(): Table
      reads this, proc, cpu
    {
      Table(proc[..], cpu[..], nextpid, initproc, embryo, exits, reaps)
    }

    ghost predicate Valid()
      reads this, proc, cpu
    {
      Inv(Value())
    }

    // userinit, on a machine with this many CPUs.
    constructor (ncpu: nat)
      ensures Valid() && Initial(Value()) && cpu.Length == ncpu && fresh(proc) && fresh(cpu)
    {
      proc := new Process[NPROC](i => if i == 0 then Process(RUNNABLE, 1, None, NoChan, false)
                                       else Process(UNUSED, 0, None, NoChan, false));
      cpu := new Option<nat>[ncpu](_ => None);
      initproc, nextpid := 0, 2;
      embryo, exits, reaps := seq(NPROC, _ => None), [], [];
      new;
      InitialInv(Value());
    }

    // allocproc: the slot of the new process, if there is one.
    method Allocproc(c: nat) returns (r: Option<nat>)
      requires Valid() && Enabled(Value(), Alloc(c))
      modifies proc, this`nextpid, this`embryo
      ensures Valid() && Value() == Do(old(Value()), Alloc(c))
      ensures r == FirstUnused(old(proc[..]), 0)
      ensures r.Some? ==>
        proc[r.value].state == EMBRYO && proc[r.value].pid == old(nextpid) && nextpid == old(nextpid) + 1
    {
      hide Inv;
      StepInv(Value(), Alloc(c));
      var p := 0;
      while p < proc.Length
        invariant p <= proc.Length && FirstUnused(proc[..], 0) == FirstUnused(proc[..], p)
      {
        if proc[p].state == UNUSED {
          proc[p] := proc[p].(state := EMBRYO, pid := nextpid);
          nextpid := nextpid + 1;
          embryo := embryo[cpu[c].value := Some(p)];
          assert Value() == AfterAlloc(old(Value()), c);
          return Some(p);
        }
        p := p + 1;
      }
      r := None;
    }

    // `np->state = UNUSED` when kalloc or copyuvm failed.
    method AbandonFork(c: nat, np: nat)
      requires Valid() && Enabled(Value(), Abandon(c)) && np == Child(Value(), c)
      modifies proc, this`embryo
      ensures Valid() && Value() == Do(old(Value()), Abandon(c)) && proc[np].state == UNUSED
    {
      hide Inv;
      StepInv(Value(), Abandon(c));
      proc[np] := proc[np].(state := UNUSED);
      embryo := embryo[cpu[c].value := None];
      assert Value() == Do(old(Value()), Abandon(c));
    }

    // `np->parent = curproc`.
    method LinkFork(c: nat, np: nat)
      requires Valid() && Enabled(Value(), Link(c)) && np == Child(Value(), c)
      modifies proc
      ensures Valid() && Value() == Do(old(Value()), Link(c))
      ensures proc[np].parent == cpu[c] && cpu[c].Some?
    {
      hide Inv;
      StepInv(Value(), Link(c));
      proc[np] := proc[np].(parent := cpu[c]);
      assert Value() == Do(old(Value()), Link(c));
    }

    // The end of fork, which returns the child's pid.
    method FinishFork(c: nat, np: nat) returns (pid: nat)
      requires Valid() && Enabled(Value(), Finish(c)) && np == Child(Value(), c)
      modifies proc, this`embryo
      ensures Valid() && Value() == Do(old(Value()), Finish(c)) && pid == proc[np].pid
      ensures proc[np].state == RUNNABLE
    {
      hide Inv;
      StepInv(Value(), Finish(c));
      pid := proc[np].pid;
      proc[np] := proc[np].(state := RUNNABLE);
      embryo := embryo[cpu[c].value := None];
      assert Value() == Do(old(Value()), Finish(c));
    }

    method Wakeup1(chan: Chan)
      modifies proc
      ensures proc[..] == Woken(old(proc[..]), chan)
    {
      var p := 0;
      while p < proc.Length
        invariant p <= proc.Length
        invariant forall i :: 0 <= i < proc.Length ==>
          proc[i] == if i < p then Wake(old(proc[i]), chan) else old(proc[i])
      {
        if proc[p].state == SLEEPING && proc[p].chan == chan {
          proc[p] := proc[p].(state := RUNNABLE);
        }
        p := p + 1;
      }
    }

    method Wakeup(n: nat)
      requires Valid()
      modifies proc
      ensures Valid() && Value() == Do(old(Value()), Step.Wakeup(n))
    {
      hide Inv;
      StepInv(Value(), Step.Wakeup(n));
      Wakeup1(Other(n));
    }

    // exit, from its acquire of ptable.lock into the scheduler.
    method Exit(c: nat)
      requires Valid() && Enabled(Value(), Step.Exit(c))
      modifies proc, cpu, this`exits
      ensures Valid() && Value() == Do(old(Value()), Step.Exit(c))
      ensures proc[old(cpu[c]).value].state == ZOMBIE && cpu[c].None?
      ensures exits == old(exits) + [proc[old(cpu[c]).value].pid]
    {
      hide Inv;
      StepInv(Value(), Step.Exit(c));
      var cur := cpu[c].value;
      ghost var ps := proc[..];
      Wakeup1(if proc[cur].parent.Some? then OnProc(proc[cur].parent.value) else NoChan);
      PassNone(ps, cur, initproc, proc[..]);
      var p := 0;
      while p < proc.Length
        invariant p <= proc.Length && cpu[..] == old(cpu[..]) && exits == old(exits)
        invariant Passing(ps, cur, initproc, p, proc[..])
      {
        PassOn(p, cur, ps);
        p := p + 1;
      }
      proc[cur] := proc[cur].(state := ZOMBIE);
      exits := exits + [proc[cur].pid];
      cpu[c] := None;
      PassedAll(ps, cur, initproc, proc[..]);
      assert Value() == AfterExit(old(Value()), c);
    }

    // One turn of the loop that passes abandoned children to init.
    method PassOn(p: nat, cur: nat, ghost ps: seq<Process>)
      requires p < proc.Length == |ps| && cur < |ps| && cur != initproc && Passing(ps, cur, initproc, p, proc[..])
      modifies proc
      ensures Passing(ps, cur, initproc, p + 1, proc[..])
    {
      assert proc[p] == Passed(ps, cur, initproc, p, p);
      if proc[p].parent == Some(cur) {
        proc[p] := proc[p].(parent := Some(initproc));
        if proc[p].state == ZOMBIE {
          assert LeavesBelow(ps, cur, p + 1);
          Wakeup1(OnProc(initproc));
        }
      }
      forall i: nat | i < |ps| ensures proc[i] == Passed(ps, cur, initproc, p + 1, i) {
        assert old(proc[i]) == Passed(ps, cur, initproc, p, i);
      }
    }

    // wait, from the start of a scan of the table until it returns (a pid, or None for -1) or sleeps.
    method Wait(c: nat) returns (slept: bool, r: Option<nat>)
      requires Valid() && Enabled(Value(), Step.Wait(c))
      modifies proc, cpu, this`reaps
      ensures Valid() && Value() == Do(old(Value()), Step.Wait(c))
      ensures r.Some? ==> !slept && r.value in old(exits) && r.value !in old(reaps) && r.value in reaps
      ensures !slept && r.None? ==>
        && Value() == old(Value())
        && (proc[cpu[c].value].killed || !HasKids(proc[..], cpu[c].value))
      // which of the three it is
      ensures var ps, cur := old(proc[..]), old(cpu[c]).value;
        && (r.Some? <==> exists k :: 0 <= k < |ps| && ps[k].parent == Some(cur) && ps[k].state.ZOMBIE?)
        && (slept <==> r.None? && !ps[cur].killed && exists k :: 0 <= k < |ps| && ps[k].parent == Some(cur))
    {
      hide Inv, LogsOk;
      StepInv(Value(), Step.Wait(c));
      var cur := cpu[c].value;
      slept, r := false, None;
      var havekids, p := false, 0;
      while p < proc.Length
        invariant p <= proc.Length && proc[..] == old(proc[..]) && cpu[..] == old(cpu[..]) && reaps == old(reaps)
        invariant FirstZombie(proc[..], cur, 0) == FirstZombie(proc[..], cur, p)
        invariant havekids <==> exists k :: 0 <= k < p && proc[..][k].parent == Some(cur)
      {
        if proc[p].parent == Some(cur) {
          havekids := true;
          if proc[p].state == ZOMBIE {
            ZombiePid(Value(), p);
            r := Some(proc[p].pid);
            reaps := reaps + [proc[p].pid];
            assert reaps[|old(reaps)|] == proc[p].pid;
            proc[p] := proc[p].(pid := 0, parent := None, killed := false, state := UNUSED);
            assert Value() == AfterWait(old(Value()), c);
            return;
          }
        }
        p := p + 1;
      }
      assert havekids <==> HasKids(proc[..], cur);
      if !havekids || proc[cur].killed {
        return;
      }
      proc[cur] := proc[cur].(chan := OnProc(cur), state := SLEEPING);
      cpu[c] := None;
      slept := true;
      assert Value() == AfterWait(old(Value()), c);
    }

    // The scheduler's scan from slot p on: it switches to the first RUNNABLE process, if any.
    method Schedule(c: nat, from: nat) returns (r: Option<nat>)
      requires Valid() && c < cpu.Length && cpu[c].None? && from <= proc.Length
      modifies proc, cpu
      ensures Valid()
      ensures r.Some? ==>
        && from <= r.value < proc.Length && old(proc[..])[r.value].state.RUNNABLE?
        && (forall i :: from <= i < r.value ==> !old(proc[..])[i].state.RUNNABLE?)
        && Value() == Do(old(Value()), Dispatch(c, r.value))
      ensures r.None? ==> Value() == old(Value()) && forall i :: from <= i < proc.Length ==> !proc[i].state.RUNNABLE?
    {
      hide Inv;
      var p := from;
      while p < proc.Length
        invariant from <= p <= proc.Length && Value() == old(Value())
        invariant forall i :: from <= i < p ==> !proc[i].state.RUNNABLE?
      {
        if proc[p].state == RUNNABLE {
          StepInv(Value(), Dispatch(c, p));
          cpu[c] := Some(p);
          proc[p] := proc[p].(state := RUNNING, chan := NoChan);
          assert Value() == Do(old(Value()), Dispatch(c, p));
          return Some(p);
        }
        p := p + 1;
      }
      r := None;
    }

    method Yield(c: nat)
      requires Valid() && Enabled(Value(), Step.Yield(c))
      modifies proc, cpu
      ensures Valid() && Value() == Do(old(Value()), Step.Yield(c))
      ensures proc[old(cpu[c]).value].state == RUNNABLE && cpu[c].None?
    {
      hide Inv;
      StepInv(Value(), Step.Yield(c));
      var cur := cpu[c].value;
      proc[cur] := proc[cur].(state := RUNNABLE);
      cpu[c] := None;
      assert Value() == Do(old(Value()), Step.Yield(c));
    }

    // sleep on an address that is not a process.
    method Sleep(c: nat, n: nat)
      requires Valid() && Enabled(Value(), Step.Sleep(c, n))
      modifies proc, cpu
      ensures Valid() && Value() == Do(old(Value()), Step.Sleep(c, n))
      ensures proc[old(cpu[c]).value].state == SLEEPING && proc[old(cpu[c]).value].chan == Other(n) && cpu[c].None?
    {
      hide Inv;
      StepInv(Value(), Step.Sleep(c, n));
      var cur := cpu[c].value;
      proc[cur] := proc[cur].(chan := Other(n), state := SLEEPING);
      cpu[c] := None;
      assert Value() == Do(old(Value()), Step.Sleep(c, n));
    }

    method Kill(pid: nat) returns (found: bool)
      requires Valid()
      modifies proc
      ensures Valid() && Value() == Do(old(Value()), Step.Kill(pid))
      ensures found <==> exists i :: 0 <= i < |old(proc[..])| && old(proc[..])[i].pid == pid
    {
      hide Inv;
      StepInv(Value(), Step.Kill(pid));
      var p := 0;
      while p < proc.Length
        invariant p <= proc.Length && proc[..] == old(proc[..])
        invariant FirstPid(proc[..], pid, 0) == FirstPid(proc[..], pid, p)
      {
        if proc[p].pid == pid {
          assert old(proc[..])[p].pid == pid;
          proc[p] := proc[p].(killed := true);
          if proc[p].state == SLEEPING {
            proc[p] := proc[p].(state := RUNNABLE);
          }
          assert Value() == AfterKill(old(Value()), pid);
          return true;
        }
        p := p + 1;
      }
      found := false;
    }
  }

  // A zombie child of cur is in a slot before p.
  ghost predicate LeavesBelow(ps: seq<Process>, cur: nat, p: nat) {
    exists k :: 0 <= k < p && k < |ps| && ps[k].state.ZOMBIE? && ps[k].parent == Some(cur)
  }

  // Process i after exit passed on the children in the slots before p; ps is the table it began with.
  ghost function Passed(ps: seq<Process>, cur: nat, init: nat, p: nat, i: nat): Process
    requires cur < |ps| && i < |ps|
  {
    var woken := Wake(ps[i], ParentChan(ps[cur]));
    var adopted := if i < p then Adopt(woken, cur, init) else woken;
    if LeavesBelow(ps, cur, p) then Wake(adopted, OnProc(init)) else adopted
  }

  ghost predicate Passing(ps: seq<Process>, cur: nat, init: nat, p: nat, qs: seq<Process>) {
    cur < |ps| == |qs| && forall i: nat :: i < |ps| ==> qs[i] == Passed(ps, cur, init, p, i)
  }

  lemma PassNone(ps: seq<Process>, cur: nat, init: nat, qs: seq<Process>)
    requires cur < |ps| && qs == Woken(ps, ParentChan(ps[cur]))
    ensures Passing(ps, cur, init, 0, qs)
  {
  }

  lemma PassedAll(ps: seq<Process>, cur: nat, init: nat, qs: seq<Process>)
    requires cur < |ps| == |qs|
    requires forall i: nat :: i < |ps| ==>
      qs[i] == if i == cur then Passed(ps, cur, init, |ps|, i).(state := ZOMBIE) else Passed(ps, cur, init, |ps|, i)
    ensures qs == Exited(ps, cur, init)
  {
    assert LeavesBelow(ps, cur, |ps|) == LeavesZombies(ps, cur);
  }

  lemma ZombiePid(t: Table, p: nat)
    requires Inv(t) && p < |t.procs| && t.procs[p].state.ZOMBIE?
    ensures t.procs[p].pid in t.exits && t.procs[p].pid !in t.reaps
  {
    assert SlotOk(t, p);
  }
}
