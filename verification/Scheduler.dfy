/**
 The scheduler's state and operations, as the cores update it in place; each is one event of the transition system, or a
 few.
 */
module Scheduler {
  import opened Wrappers
  import opened SchedSpec

  const USER_STACK: nat := 0x8_0000_0000
  const USER_STACK_SIZE: nat := 4096 * 8
  const PHYSICAL_BASE: nat := 0xffff_8000_0000_0000
  const MINUS_ONE: nat := 0xffff_ffff_ffff_ffff

  /** The context a new process starts with; a code segment with a non-zero privilege level is a user program. */
  function StartContext(rip: nat, cs: nat, stack: nat): Context {
    var user := cs % 4 != 0;
    Context(0, rip, cs, 0x202,
            if user then USER_STACK + USER_STACK_SIZE else stack + PHYSICAL_BASE,
            if user then 0x23 else 0x10,
            seq(14, _ => 0))
  }

  lemma Starts(rip: nat, cs: nat, stack: nat)
    ensures StartsAs(StartContext(rip, cs, stack), rip, cs, stack)
  {
  }

  class Scheduler {
    var waiting: seq<Tid>
    var threads: map<Tid, Thread>
    var processes: map<Pid, Process>
    var cores: seq<Core>
    ghost var admitted: set<Tid>

    ghost function Snapshot(): State
      reads this
    {
      State(waiting, threads, processes, cores, admitted)
    }

    ghost predicate Valid()
      reads this
    {
      Inv(Snapshot())
    }

    constructor (boot: seq<Context>)
      ensures Valid() && Snapshot() == Initial(boot)
    {
      waiting := [];
      threads := map[];
      processes := map[];
      cores := seq(|boot|, i requires 0 <= i < |boot| => Core(None, None, None, Executing, boot[i]));
      admitted := {};
      new;
      InitialInv(boot);
    }

    /** A process with one thread, not yet on the queue; nothing if an identifier is missing. */
    method CreateProcess(pid: Pid, number: Option<nat>, newTid: Option<Tid>, pagemap: nat, directory: nat,
                         rip: nat, cs: nat, stack: nat)
      returns (ok: bool)
      requires Valid() && pid !in processes && (newTid.Some? ==> newTid.value !in threads)
      modifies this
      ensures Valid() && ok == (number.Some? && newTid.Some?)
      ensures !ok ==> Snapshot() == old(Snapshot())
      ensures ok ==> var home := Home(number.value, pagemap, directory);
        Created(old(Snapshot()), pid, home, newTid.value, rip, cs, stack, Snapshot())
    {
      hide CoresOk, Accounted, QueueOk, ProcessesOk, Locked, Runs, StartContext, StartsAs;
      Starts(rip, cs, stack);
      if number.None? || newTid.None? {
        return false;
      }
      var tid, home := newTid.value, Home(number.value, pagemap, directory);
      ghost var s0 := Snapshot();
      ReserveProcess(pid, home);
      ghost var s1 := Snapshot();
      StepInv(s1, Spawn(pid, tid, StartContext(rip, cs, stack)));
      threads := threads[tid := Thread(Waiting, pid, StartContext(rip, cs, stack))];
      processes := processes[pid := processes[pid].(threads := processes[pid].threads + [tid])];
      TwoSteps(s0, Reserve(pid, home), s1, Spawn(pid, tid, StartContext(rip, cs, stack)), Snapshot());
      return true;
    }

    /** A process without threads goes on the process list. */
    method ReserveProcess(pid: Pid, home: Home)
      requires Valid() && pid !in processes
      modifies this
      ensures Valid()
      ensures Follows(old(Snapshot()), Reserve(pid, home), Snapshot())
    {
      hide CoresOk, Accounted, QueueOk, ProcessesOk, Locked;
      StepInv(Snapshot(), Reserve(pid, home));
      processes := processes[pid := Process(Waiting, [], home)];
    }

    method Queue(tid: Tid)
      requires Valid() && tid in threads && tid !in admitted
      modifies this
      ensures Valid()
      ensures Follows(old(Snapshot()), Enqueue(tid), Snapshot())
    {
      hide CoresOk, Accounted, QueueOk, ProcessesOk, Locked;
      StepInv(Snapshot(), Enqueue(tid));
      waiting := waiting + [tid];
      admitted := admitted + {tid};
    }

    /** The thread of a forked process, made by the thread that executes on core `c`. */
    method ForkThread(c: nat, pid: Pid, tid: Tid)
      requires Valid() && c < |cores| && cores[c].phase.Executing? && cores[c].runningThread.Some?
      requires pid in processes && tid !in threads
      modifies this
      ensures Valid()
      ensures Follows(old(Snapshot()), Fork(c, old(cores)[c].runningThread.value, pid, tid), Snapshot())
    {
      hide CoresOk, Accounted, QueueOk, ProcessesOk, Locked;
      StepInv(Snapshot(), Fork(c, cores[c].runningThread.value, pid, tid));
      threads := threads[tid := Thread(Waiting, pid, cores[c].cpu)];
      threads := threads[tid := threads[tid].(regs := threads[tid].regs.(rax := 0))];
      processes := processes[pid := processes[pid].(threads := processes[pid].threads + [tid])];
      assert threads == old(threads)[tid := Thread(Waiting, pid, cores[c].cpu.(rax := 0))];
    }

    /** The result of a system call goes into the caller's frame. */
    method SetResult(c: nat, value: nat)
      requires Valid() && c < |cores| && cores[c].phase.Executing? && cores[c].runningThread.Some?
      modifies this
      ensures Valid()
      ensures var core := old(cores)[c];
        Follows(old(Snapshot()), Execute(c, core.runningThread.value, core.cpu.(rax := value)), Snapshot())
      ensures c < |cores| && cores[c].cpu.rax == value
    {
      hide CoresOk, Accounted, QueueOk, ProcessesOk, Locked;
      StepInv(Snapshot(), Execute(c, cores[c].runningThread.value, cores[c].cpu.(rax := value)));
      cores := cores[c := cores[c].(cpu := cores[c].cpu.(rax := value))];
    }

    /**
     `fork`, with `pagemap` for the copy of the caller's page map. The number of the child is not looked at: without one
     it is -1, and so is the result. Without a thread identifier the child stays on the process list without a thread,
     and the caller is told -1.
     */
    method SyscallFork(c: nat, pid: Pid, number: Option<nat>, newTid: Option<Tid>, pagemap: nat)
      requires Valid() && c < |cores| && cores[c].phase.Executing? && cores[c].runningThread.Some?
      requires pid !in processes && (newTid.Some? ==> newTid.value !in threads)
      modifies this
      ensures Valid() && old(cores)[c].runningProcess.Some? && old(cores)[c].runningProcess.value in old(processes)
      ensures var caller, cpu := old(cores)[c].runningThread.value, old(cores)[c].cpu;
        var given := if number.Some? then number.value else MINUS_ONE;
        var home := Home(given, pagemap, old(processes)[old(cores)[c].runningProcess.value].home.directory);
        Runs(old(Snapshot()),
             if newTid.None? then [Reserve(pid, home), Execute(c, caller, cpu.(rax := MINUS_ONE))]
             else [Reserve(pid, home), Fork(c, caller, pid, newTid.value), Enqueue(newTid.value),
                   Execute(c, caller, cpu.(rax := given))],
             Snapshot())
      ensures c < |cores| && cores[c].cpu.rax ==
        if number.Some? && newTid.Some? then number.value else 0xffff_ffff_ffff_ffff
    {
      hide CoresOk, Accounted, QueueOk, ProcessesOk, Locked, Runs;
      ghost var s0 := Snapshot();
      ghost var caller, cpu := cores[c].runningThread.value, cores[c].cpu;
      var given := if number.Some? then number.value else MINUS_ONE;
      var home := Home(given, pagemap, processes[cores[c].runningProcess.value].home.directory);
      ReserveProcess(pid, home);
      ghost var s1 := Snapshot();
      if newTid.None? {
        SetResult(c, MINUS_ONE);
        TwoSteps(s0, Reserve(pid, home), s1, Execute(c, caller, cpu.(rax := MINUS_ONE)), Snapshot());
        return;
      }
      var tid := newTid.value;
      NotAdmitted(s1, tid);
      ForkThread(c, pid, tid);
      ghost var s2 := Snapshot();
      Queue(tid);
      ghost var s3 := Snapshot();
      SetResult(c, given);
      ghost var last := Execute(c, caller, cpu.(rax := given));
      TwoSteps(s2, Enqueue(tid), s3, last, Snapshot());
      FollowedBy(s1, Fork(c, caller, pid, tid), [Enqueue(tid), last], s2, Snapshot());
      assert [Fork(c, caller, pid, tid)] + [Enqueue(tid), last] == [Fork(c, caller, pid, tid), Enqueue(tid), last];
      FollowedBy(s0, Reserve(pid, home), [Fork(c, caller, pid, tid), Enqueue(tid), last], s1, Snapshot());
      assert [Reserve(pid, home)] + [Fork(c, caller, pid, tid), Enqueue(tid), last]
          == [Reserve(pid, home), Fork(c, caller, pid, tid), Enqueue(tid), last];
    }

    /** The scan that decides what a process is once one of its threads has been taken off a core. */
    method ProcessStatus(proc: Pid) returns (status: Status)
      requires proc in processes
      ensures status == if AnyRunning(threads, processes[proc].threads) then Running else Waiting
    {
      status := Waiting;
      var l := processes[proc].threads;
      for i := 0 to |l|
        invariant status == if AnyRunning(threads, l[..i]) then Running else Waiting
      {
        assert l[..i + 1] == l[..i] + [l[i]];
        if l[i] in threads && threads[l[i]].status == Running {
          status := Running;
        }
      }
      assert l[..|l|] == l;
    }

    /** The previous thread of the core goes back to the end of the queue. */
    method TakeOff(c: nat)
      requires WellFormed(Snapshot()) && c < |cores| && cores[c].runningThread.Some?
      modifies this
      ensures Snapshot() == old(Demote(Snapshot(), c))
    {
      var previous, proc := cores[c].runningThread.value, cores[c].runningProcess.value;
      threads := threads[previous := threads[previous].(status := Waiting)];
      threads := threads[previous := threads[previous].(regs := cores[c].cpu)];
      var status := ProcessStatus(proc);
      processes := processes[proc := processes[proc].(status := status)];
      waiting := waiting + [previous];
    }

    /** The locked section of `reschedule`; true if a thread was chosen. Holds for dying threads too. */
    method RescheduleLocked(c: nat) returns (chosen: bool)
      requires WellFormed(Snapshot()) && c < |cores|
      modifies this
      ensures Snapshot() == old(Locked(Snapshot(), c))
      ensures chosen <==>
        old(waiting) != [] ||
          (old(cores)[c].runningThread.Some? && old(threads[cores[c].runningThread.value].status) != Dying)
    {
      ghost var s := Snapshot();
      var running := cores[c].runningThread;
      var scheduled: Option<Tid> := None;
      if |waiting| != 0 {
        scheduled := Some(waiting[0]);
        waiting := waiting[1..];
      }
      if scheduled.None? {
        if running.Some? && threads[running.value].status != Dying {
          scheduled := running;
          threads := threads[running.value := threads[running.value].(regs := cores[c].cpu)];
        } else {
          if running.Some? {
            threads := threads[running.value := threads[running.value].(status := Dead)];
          }
          return false;
        }
      }
      var t := scheduled.value;
      if running.Some? && running.value != t {
        if threads[running.value].status != Dying {
          TakeOff(c);
        } else {
          threads := threads[running.value := threads[running.value].(status := Dead)];
        }
      }
      var parent := threads[t].parent;
      processes := processes[parent := processes[parent].(status := Running)];
      threads := threads[t := threads[t].(status := Running)];
      cores := cores[c := cores[c].(phase := Chosen(t))];
      return true;
    }

    /** After the lock is released: the core records what it chose, and switches to that process's page map. */
    method PublishChoice(c: nat)
      requires Valid() && c < |cores| && cores[c].phase.Chosen?
      modifies this
      ensures Valid()
      ensures Follows(old(Snapshot()), Publish(c), Snapshot())
    {
      hide CoresOk, Accounted, QueueOk, ProcessesOk, Locked;
      StepInv(Snapshot(), Publish(c));
      var t := cores[c].phase.thread;
      var proc := threads[t].parent;
      cores := cores[c := cores[c].(runningThread := Some(t))];
      cores := cores[c := cores[c].(runningProcess := Some(proc))];
      cores := cores[c := cores[c].(home := Some(processes[proc].home))];
      cores := cores[c := cores[c].(phase := Published(t))];
      assert cores == old(cores)[c := TakesNote(old(Snapshot()), old(cores)[c], t)];
    }

    /** The context switch: the core's registers become the saved ones. */
    method SwitchContext(c: nat)
      requires Valid() && c < |cores| && cores[c].phase.Published?
      modifies this
      ensures Valid()
      ensures Follows(old(Snapshot()), Resume(c, old(cores)[c].phase.thread), Snapshot())
    {
      hide CoresOk, Accounted, QueueOk, ProcessesOk, Locked;
      StepInv(Snapshot(), Resume(c, cores[c].phase.thread));
      cores := cores[c := cores[c].(cpu := threads[cores[c].phase.thread].regs, phase := Executing)];
    }

    /** All of `reschedule` on one core, uninterrupted by the others. */
    method Reschedule(c: nat) returns (ghost locked: State, ghost published: State)
      requires Valid() && c < |cores| && cores[c].phase.Executing?
      modifies this
      ensures Follows(old(Snapshot()), SchedSpec.Reschedule(c), locked) && c < |locked.cores|
      ensures if locked.cores[c].phase.Chosen?
              then Follows(locked, Publish(c), published) &&
                Follows(published, Resume(c, locked.cores[c].phase.thread), Snapshot())
              else Snapshot() == locked
      ensures Valid() && |cores| == |old(cores)| && cores[c].phase.Executing?
      ensures old(waiting) != [] ==> cores[c].runningThread == Some(old(waiting)[0])
      ensures old(waiting) == [] ==>
        cores[c].runningThread == old(cores)[c].runningThread && cores[c].cpu == old(cores)[c].cpu
    {
      hide CoresOk, Accounted, QueueOk, ProcessesOk, Locked;
      ghost var s := Snapshot();
      StepInv(s, SchedSpec.Reschedule(c));
      StepQueue(s, SchedSpec.Reschedule(c));
      LockedShape(s, c);
      var chosen := RescheduleLocked(c);
      locked, published := Snapshot(), Snapshot();
      if chosen {
        PublishChoice(c);
        published := Snapshot();
        SwitchContext(c);
      }
    }
  }

  lemma FollowedBy(s: State, e: Event, es: seq<Event>, s1: State, s': State)
    requires Follows(s, e, s1) && Runs(s1, es, s')
    ensures Runs(s, [e] + es, s')
  {
    hide WellFormed, Enabled, Next;
    assert ([e] + es)[1..] == es;
  }

  lemma TwoSteps(s: State, e: Event, s1: State, e1: Event, s': State)
    requires Follows(s, e, s1) && Follows(s1, e1, s')
    ensures Runs(s, [e, e1], s')
  {
    hide WellFormed, Enabled, Next;
    assert Runs(s', [], s');
    FollowedBy(s1, e1, [], s', s');
    assert [e1] + [] == [e1];
    FollowedBy(s, e, [e1], s1, s');
    assert [e] + [e1] == [e, e1];
  }

  lemma NotAdmitted(s: State, t: Tid)
    requires Accounted(s) && t !in s.threads
    ensures t !in s.admitted
  {
  }

  /** What a core finds after its locked section. */
  lemma LockedShape(s: State, c: nat)
    requires Inv(s) && c < |s.cores| && s.cores[c].phase.Executing?
    ensures var s' := Locked(s, c);
      && |s'.cores| == |s.cores|
      && (s.waiting == [] && s.cores[c].runningThread.None? ==> s' == s)
      && (s.waiting == [] && s.cores[c].runningThread.Some? ==>
            var p := s.cores[c].runningThread.value;
            && s'.cores[c].phase == Chosen(p) && p in s'.threads && s'.threads[p].regs == s.cores[c].cpu
            && p in s.threads && s.threads[p].status != Dying)
      && (s.waiting != [] ==> s'.cores[c].phase == Chosen(s.waiting[0]))
  {
    hide ProcessesOk, Accounted, QueueOk, CoresOk, AnyRunning;
    LockedRegs(s, c);
    StepQueue(s, SchedSpec.Reschedule(c));
    if s.waiting == [] && s.cores[c].runningThread.Some? {
      LockedKeeps(s, c);
    }
  }
}
