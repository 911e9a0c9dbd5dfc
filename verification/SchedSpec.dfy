/**
 The scheduler as a transition system over any number of cores. A step is one locked section, one unlocked
 publication of a choice, one context switch, or a stretch of execution; steps of different cores interleave freely.
 */
module SchedSpec {
  import opened Wrappers

  // Names of thread and process objects; the number a process was given is kept in its `Home`.
  type Tid = nat
  type Pid = nat

  /** The saved register frame; `others` holds the registers no operation here singles out. */
  datatype Context = Context(rax: nat, rip: nat, cs: nat, rflags: nat, rsp: nat, ss: nat, others: seq<nat>)

  datatype Status = Waiting | Running | Dying | Dead

  datatype Thread = Thread(status: Status, parent: Pid, regs: Context)

  /** What a process has from the beginning: the number it was given, its page map and its directory. */
  datatype Home = Home(number: nat, pagemap: nat, directory: nat)

  datatype Process = Process(status: Status, threads: seq<Tid>, home: Home)

  /**
   Where a core is: running code (a thread, or nothing yet), past the locked section with a thread chosen,
   or past the publication of that choice.
   */
  datatype Phase = Executing | Chosen(thread: Tid) | Published(thread: Tid)

  /** `home` is the page map in force on the core and its working directory. */
  datatype Core = Core(
    runningThread: Option<Tid>,
    runningProcess: Option<Pid>,
    home: Option<Home>,
    phase: Phase,
    cpu: Context)

  /** `admitted` remembers which threads were ever put on the waiting queue. */
  datatype State = State(
    waiting: seq<Tid>,
    threads: map<Tid, Thread>,
    processes: map<Pid, Process>,
    cores: seq<Core>,
    admitted: set<Tid>)

  datatype Event =
    | Reserve(pid: Pid, home: Home)
    | Spawn(pid: Pid, tid: Tid, ctx: Context)
    | Fork(core: nat, parent: Tid, pid: Pid, tid: Tid)
    | Enqueue(tid: Tid)
    | Reschedule(core: nat)
    | Publish(core: nat)
    | Resume(core: nat, tid: Tid)
    | Execute(core: nat, tid: Tid, ctx: Context)
    | Idle(core: nat, ctx: Context)

  function Initial(cores: seq<Context>): State {
    var idle := seq(|cores|, i requires 0 <= i < |cores| => Core(None, None, None, Executing, cores[i]));
    State([], map[], map[], idle, {})
  }

  // ---------------------------------------------------------------- steps

  predicate AnyRunning(threads: map<Tid, Thread>, l: seq<Tid>) {
    exists t :: t in l && t in threads && threads[t].status == Running
  }

  /** References lead somewhere. */
  ghost predicate WellFormed(s: State) {
    && (forall i :: 0 <= i < |s.waiting| ==> s.waiting[i] in s.threads)
    && (forall t :: t in s.threads ==> s.threads[t].parent in s.processes)
    && (forall c :: 0 <= c < |s.cores| ==>
          && (s.cores[c].runningThread.Some? ==>
                && s.cores[c].runningThread.value in s.threads
                && s.cores[c].runningProcess.Some? && s.cores[c].runningProcess.value in s.processes)
          && (!s.cores[c].phase.Executing? ==> s.cores[c].phase.thread in s.threads))
  }

  /** The previous thread of core `c` goes back to the queue with the registers it was interrupted with. */
  function Demote(s: State, c: nat): State
    requires WellFormed(s) && c < |s.cores| && s.cores[c].runningThread.Some?
  {
    var p, proc := s.cores[c].runningThread.value, s.cores[c].runningProcess.value;
    var threads := s.threads[p := s.threads[p].(status := Waiting, regs := s.cores[c].cpu)];
    var status := if AnyRunning(threads, s.processes[proc].threads) then Running else Waiting;
    s.(threads := threads,
       processes := s.processes[proc := s.processes[proc].(status := status)],
       waiting := s.waiting + [p])
  }

  /** Thread `t` and its process are marked running; core `c` has yet to take note. */
  function Choose(s: State, c: nat, t: Tid): State
    requires c < |s.cores| && t in s.threads && s.threads[t].parent in s.processes
  {
    var proc := s.threads[t].parent;
    s.(threads := s.threads[t := s.threads[t].(status := Running)],
       processes := s.processes[proc := s.processes[proc].(status := Running)],
       cores := s.cores[c := s.cores[c].(phase := Chosen(t))])
  }

  function SetStatus(s: State, t: Tid, status: Status): State
    requires t in s.threads
  {
    s.(threads := s.threads[t := s.threads[t].(status := status)])
  }

  /** The locked section of `reschedule` on core `c`, entered with the registers the core had. */
  function Locked(s: State, c: nat): State
    requires WellFormed(s) && c < |s.cores|
  {
    var running := s.cores[c].runningThread;
    if s.waiting == [] then
      if running.None? then s
      else if s.threads[running.value].status == Dying then SetStatus(s, running.value, Dead)
      else
        var saved := s.(threads := s.threads[running.value := s.threads[running.value].(regs := s.cores[c].cpu)]);
        Choose(saved, c, running.value)
    else
      var t, popped := s.waiting[0], s.(waiting := s.waiting[1..]);
      if running.None? || running.value == t then Choose(popped, c, t)
      else if s.threads[running.value].status == Dying then Choose(SetStatus(popped, running.value, Dead), c, t)
      else Choose(Demote(popped, c), c, t)
  }

  ghost predicate Enabled(s: State, e: Event) {
    match e
    case Reserve(pid, _) => pid !in s.processes
    case Spawn(pid, tid, _) => pid in s.processes && tid !in s.threads
    case Fork(c, parent, pid, tid) => ExecutingOn(s, c, parent) && pid in s.processes && tid !in s.threads
    case Enqueue(tid) => tid in s.threads && tid !in s.admitted
    case Reschedule(c) => c < |s.cores| && s.cores[c].phase.Executing?
    case Publish(c) => c < |s.cores| && s.cores[c].phase.Chosen?
    case Resume(c, tid) => c < |s.cores| && s.cores[c].phase == Published(tid)
    case Execute(c, tid, _) => ExecutingOn(s, c, tid)
    case Idle(c, _) => c < |s.cores| && s.cores[c].phase.Executing? && s.cores[c].runningThread.None?
  }

  ghost predicate ExecutingOn(s: State, c: nat, t: Tid) {
    c < |s.cores| && s.cores[c].phase.Executing? && s.cores[c].runningThread == Some(t)
  }

  /** A process without threads. */
  function AddProcess(s: State, pid: Pid, home: Home): State {
    s.(processes := s.processes[pid := Process(Waiting, [], home)])
  }

  /** One more thread of a process that exists. */
  function AddThread(s: State, pid: Pid, tid: Tid, ctx: Context): State
    requires pid in s.processes
  {
    s.(threads := s.threads[tid := Thread(Waiting, pid, ctx)],
       processes := s.processes[pid := s.processes[pid].(threads := s.processes[pid].threads + [tid])])
  }

  /** The core after it has recorded its thread and that thread's process, page map and directory. */
  function TakesNote(s: State, core: Core, t: Tid): Core
    requires t in s.threads && s.threads[t].parent in s.processes
  {
    var proc := s.threads[t].parent;
    core.(runningThread := Some(t), runningProcess := Some(proc), home := Some(s.processes[proc].home),
      phase := Published(t))
  }

  ghost function Next(s: State, e: Event): State
    requires WellFormed(s) && Enabled(s, e)
  {
    match e
    case Reserve(pid, home) => AddProcess(s, pid, home)
    case Spawn(pid, tid, ctx) => AddThread(s, pid, tid, ctx)
    case Fork(c, _, pid, tid) => AddThread(s, pid, tid, s.cores[c].cpu.(rax := 0))
    case Enqueue(tid) => s.(waiting := s.waiting + [tid], admitted := s.admitted + {tid})
    case Reschedule(c) => Locked(s, c)
    case Publish(c) =>
      var t := s.cores[c].phase.thread;
      s.(cores := s.cores[c := TakesNote(s, s.cores[c], t)])
    case Resume(c, tid) => s.(cores := s.cores[c := s.cores[c].(phase := Executing, cpu := s.threads[tid].regs)])
    case Execute(c, _, ctx) => s.(cores := s.cores[c := s.cores[c].(cpu := ctx)])
    case Idle(c, ctx) => s.(cores := s.cores[c := s.cores[c].(cpu := ctx)])
  }

  /** `s'` is what event `e` makes of `s`. */
  ghost predicate Follows(s: State, e: Event, s': State) {
    WellFormed(s) && Enabled(s, e) && s' == Next(s, e)
  }

  // ---------------------------------------------------------------- no thread is lost or duplicated

  /** The thread a core is committed to, published or not. */
  function Holds(core: Core): Option<Tid> {
    match core.phase
    case Executing => core.runningThread
    case Chosen(t) => Some(t)
    case Published(t) => Some(t)
  }

  /** Queued threads are waiting, each once. */
  ghost predicate QueueOk(s: State) {
    && (forall i :: 0 <= i < |s.waiting| ==> s.waiting[i] in s.threads && s.threads[s.waiting[i]].status == Waiting)
    && (forall i, j :: 0 <= i < j < |s.waiting| ==> s.waiting[i] != s.waiting[j])
    && (forall i :: 0 <= i < |s.waiting| ==> s.waiting[i] in s.admitted)
  }

  /** The core's record is right: its thread, that thread's process, and the home of that process. */
  ghost predicate AtHome(s: State, core: Core) {
    && core.runningThread.Some? && core.runningThread == Holds(core) && core.runningThread.value in s.threads
    && var proc := s.threads[core.runningThread.value].parent;
       core.runningProcess == Some(proc) && proc in s.processes && core.home == Some(s.processes[proc].home)
  }

  /** The thread of a core is running, on that core only, and its published fields agree once it has published. */
  ghost predicate CoresOk(s: State) {
    && (forall c :: 0 <= c < |s.cores| && Holds(s.cores[c]).Some? ==>
          && Holds(s.cores[c]).value in s.threads && Holds(s.cores[c]).value in s.admitted
          && s.threads[Holds(s.cores[c]).value].status == Running)
    && (forall c, d :: 0 <= c < d < |s.cores| && Holds(s.cores[c]).Some? ==> Holds(s.cores[c]) != Holds(s.cores[d]))
    && (forall c :: 0 <= c < |s.cores| && !s.cores[c].phase.Chosen? && s.cores[c].runningThread.Some? ==>
          AtHome(s, s.cores[c]))
    && (forall c :: 0 <= c < |s.cores| && s.cores[c].phase.Published? ==> s.cores[c].runningThread.Some?)
  }

  ghost predicate Held(s: State, t: Tid) {
    exists c :: 0 <= c < |s.cores| && Holds(s.cores[c]) == Some(t)
  }

  /** Every admitted thread is on the queue or on a core; threads that run are on a core. */
  ghost predicate Accounted(s: State) {
    && (forall t :: t in s.admitted ==> t in s.threads && (t in s.waiting || Held(s, t)))
    && (forall t :: t in s.threads && s.threads[t].status == Running ==> Held(s, t))
    && (forall t :: t in s.threads ==> s.threads[t].status == Waiting || s.threads[t].status == Running)
  }

  /** A process is running exactly when one of its threads is, and lists exactly its threads. */
  ghost predicate ProcessesOk(s: State) {
    && (forall p :: p in s.processes ==>
          s.processes[p].status == if AnyRunning(s.threads, s.processes[p].threads) then Running else Waiting)
    && (forall p, t :: p in s.processes && t in s.processes[p].threads ==> t in s.threads && s.threads[t].parent == p)
    && (forall t :: t in s.threads ==>
          s.threads[t].parent in s.processes && t in s.processes[s.threads[t].parent].threads)
  }

  ghost predicate Inv(s: State) {
    WellFormed(s) && QueueOk(s) && CoresOk(s) && Accounted(s) && ProcessesOk(s)
  }

  lemma InitialInv(cores: seq<Context>)
    ensures Inv(Initial(cores))
  {
  }

  /**
   A thread that was told to die is dead when its core releases the lock, and on no queue; the core goes on with the
   next queued thread, if there is one.
   */
  lemma DyingDies(s: State, c: nat)
    requires WellFormed(s) && c < |s.cores| && s.cores[c].runningThread.Some?
    requires var t := s.cores[c].runningThread.value; s.threads[t].status == Dying && t !in s.waiting
    ensures var s', t := Locked(s, c), s.cores[c].runningThread.value;
      && t in s'.threads && s'.threads[t].status == Dead && t !in s'.waiting
      && |s'.cores| == |s.cores|
      && (if s.waiting == [] then s'.cores == s.cores else s'.cores[c].phase == Chosen(s.waiting[0]))
  {
    hide Demote;
    assert s.waiting != [] ==> s.waiting[0] in s.waiting;
  }

  function Pop(s: State): State
    requires s.waiting != []
  {
    s.(waiting := s.waiting[1..])
  }

  /** Core `c` goes on with its thread, whose registers have been saved. */
  function KeepOn(s: State, c: nat, p: Tid): State
    requires c < |s.cores| && p in s.threads
  {
    s.(threads := s.threads[p := s.threads[p].(regs := s.cores[c].cpu)],
       cores := s.cores[c := s.cores[c].(phase := Chosen(p))])
  }

  lemma LockedKeeps(s: State, c: nat)
    requires Inv(s) && c < |s.cores| && s.cores[c].phase.Executing? && s.waiting == [] && s.cores[c].runningThread.Some?
    ensures s.cores[c].runningThread.value in s.threads && Locked(s, c) == KeepOn(s, c, s.cores[c].runningThread.value)
  {
    hide Demote, ProcessesOk, QueueOk, Accounted;
    var p := s.cores[c].runningThread.value;
    assert Holds(s.cores[c]) == Some(p);
    RunningParent(s, p);
    var proc := s.threads[p].parent;
    assert s.processes[proc := s.processes[proc].(status := Running)] == s.processes;
  }

  lemma RunningParent(s: State, t: Tid)
    requires ProcessesOk(s) && t in s.threads && s.threads[t].status == Running
    ensures s.threads[t].parent in s.processes && s.processes[s.threads[t].parent].status == Running
  {
    hide AnyRunning;
    OneRunning(s.threads, s.processes[s.threads[t].parent].threads, t);
  }

  lemma LockedSwitches(s: State, c: nat)
    requires Inv(s) && c < |s.cores| && s.cores[c].phase.Executing? && s.waiting != []
    ensures WellFormed(Pop(s))
    ensures s.cores[c].runningThread.None? ==> Locked(s, c) == Choose(Pop(s), c, s.waiting[0])
    ensures s.cores[c].runningThread.Some? ==>
      s.cores[c].runningThread.value != s.waiting[0] && Locked(s, c) == Choose(Demote(Pop(s), c), c, s.waiting[0])
  {
    hide ProcessesOk, Choose, Demote;
    assert Holds(s.cores[c]) == s.cores[c].runningThread;
  }

  ghost predicate HeldElsewhere(s: State, x: nat, t: Tid) {
    exists c :: 0 <= c < |s.cores| && c != x && Holds(s.cores[c]) == Some(t)
  }

  /**
   The state inside a locked section of core `x`: its previous thread is off the core,
   and the next one, `t`, is off the queue and not yet anywhere else.
   */
  ghost predicate CoresElsewhere(s: State, x: nat) {
    && (forall c :: 0 <= c < |s.cores| && c != x && Holds(s.cores[c]).Some? ==>
          && Holds(s.cores[c]).value in s.threads && Holds(s.cores[c]).value in s.admitted
          && s.threads[Holds(s.cores[c]).value].status == Running)
    && (forall c, d :: 0 <= c < d < |s.cores| && c != x && d != x && Holds(s.cores[c]).Some? ==>
          Holds(s.cores[c]) != Holds(s.cores[d]))
    && (forall c :: 0 <= c < |s.cores| && c != x && !s.cores[c].phase.Chosen? && s.cores[c].runningThread.Some? ==>
          AtHome(s, s.cores[c]))
    && (forall c :: 0 <= c < |s.cores| && c != x && s.cores[c].phase.Published? ==> s.cores[c].runningThread.Some?)
  }

  ghost predicate AccountedBut(s: State, x: nat, t: Tid) {
    && (forall u :: u in s.admitted ==> u in s.threads && (u == t || u in s.waiting || HeldElsewhere(s, x, u)))
    && (forall u :: u in s.threads && s.threads[u].status == Running ==> HeldElsewhere(s, x, u))
    && (forall u :: u in s.threads ==> s.threads[u].status == Waiting || s.threads[u].status == Running)
  }

  ghost predicate Between(s: State, x: nat, t: Tid) {
    && WellFormed(s) && QueueOk(s) && ProcessesOk(s) && x < |s.cores|
    && CoresElsewhere(s, x) && AccountedBut(s, x, t)
    && t in s.admitted && t in s.threads && s.threads[t].status == Waiting && t !in s.waiting
  }

  lemma PopQueue(s: State)
    requires QueueOk(s) && s.waiting != []
    ensures QueueOk(Pop(s)) && s.waiting[0] !in Pop(s).waiting
    ensures forall u :: u in s.waiting <==> u == s.waiting[0] || u in Pop(s).waiting
  {
    var w := Pop(s).waiting;
    assert forall i :: 0 <= i < |w| ==> w[i] == s.waiting[i + 1];
    assert s.waiting == [s.waiting[0]] + w;
  }

  lemma QueueFacts(s: State)
    requires QueueOk(s)
    ensures forall u :: u in s.waiting ==> u in s.threads && s.threads[u].status == Waiting && u in s.admitted
  {
  }

  lemma PopBetween(s: State, c: nat)
    requires Inv(s) && c < |s.cores| && s.cores[c].phase.Executing? && s.waiting != []
    requires s.cores[c].runningThread.None?
    ensures Between(Pop(s), c, s.waiting[0])
  {
    hide ProcessesOk, QueueOk, CoresOk, Accounted, CoresElsewhere, AccountedBut;
    PopQueue(s);
    QueueFacts(s);
    PopPlaces(s, Pop(s), c);
    StatusKept(s, Pop(s));
  }

  lemma PopPlaces(s: State, s': State, c: nat)
    requires CoresOk(s) && Accounted(s) && c < |s.cores| && s.cores[c].phase.Executing?
    requires s.cores[c].runningThread.None?
    requires s.waiting != [] && s' == Pop(s) && forall u :: u in s.waiting <==> u == s.waiting[0] || u in s'.waiting
    ensures CoresElsewhere(s', c) && AccountedBut(s', c, s.waiting[0])
  {
    forall u: Tid | Held(s, u) ensures HeldElsewhere(s', c, u) {
      var d :| 0 <= d < |s.cores| && Holds(s.cores[d]) == Some(u);
      assert Holds(s'.cores[d]) == Some(u) && d != c;
    }
  }

  /** Whether one of some threads runs depends on the statuses of these threads alone. */
  lemma AnyRunningSame(threads: map<Tid, Thread>, threads': map<Tid, Thread>, l: seq<Tid>)
    requires forall t :: t in l ==> t in threads && t in threads' && threads'[t].status == threads[t].status
    ensures AnyRunning(threads', l) == AnyRunning(threads, l)
  {
  }

  /** `ProcessesOk` reads the statuses and parents of threads, nothing else of them. */
  lemma StatusKept(s: State, s': State)
    requires ProcessesOk(s) && s'.processes == s.processes && s'.threads.Keys == s.threads.Keys
    requires forall t :: t in s.threads ==>
      s'.threads[t].status == s.threads[t].status && s'.threads[t].parent == s.threads[t].parent
    ensures ProcessesOk(s')
  {
    hide AnyRunning;
    forall p | p in s.processes
      ensures AnyRunning(s'.threads, s.processes[p].threads) == AnyRunning(s.threads, s.processes[p].threads)
    {
      AnyRunningSame(s.threads, s'.threads, s.processes[p].threads);
    }
  }

  lemma DemoteProcesses(s: State, c: nat)
    requires WellFormed(s) && ProcessesOk(s) && c < |s.cores| && s.cores[c].runningThread.Some?
    requires s.cores[c].runningProcess == Some(s.threads[s.cores[c].runningThread.value].parent)
    ensures ProcessesOk(Demote(s, c))
  {
    hide AnyRunning;
    var s' := Demote(s, c);
    var p := s.cores[c].runningThread.value;
    forall q | q in s'.processes
      ensures s'.processes[q].status == if AnyRunning(s'.threads, s'.processes[q].threads) then Running else Waiting
    {
      if q != s.threads[p].parent {
        assert p !in s.processes[q].threads;
        AnyRunningSame(s.threads, s'.threads, s.processes[q].threads);
      }
    }
  }

  lemma DemoteQueue(s: State, c: nat)
    requires WellFormed(s) && QueueOk(s) && c < |s.cores| && s.cores[c].runningThread.Some?
    requires s.cores[c].runningThread.value !in s.waiting && s.cores[c].runningThread.value in s.admitted
    ensures QueueOk(Demote(s, c))
  {
    var p := s.cores[c].runningThread.value;
    var w := Demote(s, c).waiting;
    assert forall i :: 0 <= i < |s.waiting| ==> s.waiting[i] in s.waiting && w[i] == s.waiting[i];
  }

  lemma DemoteBetween(s: State, c: nat)
    requires Inv(s) && c < |s.cores| && s.cores[c].phase.Executing? && s.waiting != []
    requires s.cores[c].runningThread.Some?
    ensures WellFormed(Pop(s)) && Between(Demote(Pop(s), c), c, s.waiting[0])
  {
    hide ProcessesOk, QueueOk, CoresElsewhere, AccountedBut;
    var p := s.cores[c].runningThread.value;
    assert Holds(s.cores[c]) == Some(p);
    PopQueue(s);
    QueueFacts(s);
    StatusKept(s, Pop(s));
    DemoteProcesses(Pop(s), c);
    DemoteQueue(Pop(s), c);
    DemoteAccounted(s, c);
  }

  lemma DemoteAccounted(s: State, c: nat)
    requires Inv(s) && c < |s.cores| && s.cores[c].phase.Executing? && s.waiting != []
    requires s.cores[c].runningThread.Some? && WellFormed(Pop(s))
    ensures var s' := Demote(Pop(s), c); WellFormed(s') && CoresElsewhere(s', c) && AccountedBut(s', c, s.waiting[0])
  {
    hide ProcessesOk, QueueOk, CoresOk, Accounted, CoresElsewhere, AccountedBut, AnyRunning;
    DemoteShape(s, c);
    DemoteElsewhere(s, Demote(Pop(s), c), c);
    PopQueue(s);
    DemotePlaces(s, Demote(Pop(s), c), c);
  }

  /**
   What taking a thread off its core does: it waits, at the end of the queue; the other threads and the cores stay.
   */
  ghost predicate Demoted(s: State, s': State, c: nat) {
    && c < |s.cores| && s.cores[c].phase.Executing? && s.cores[c].runningThread.Some? && s.waiting != []
    && s'.cores == s.cores && s'.admitted == s.admitted && s'.threads.Keys == s.threads.Keys
    && (forall p :: p in s.processes ==> p in s'.processes && s'.processes[p].home == s.processes[p].home)
    && var p := s.cores[c].runningThread.value;
       && s'.waiting == s.waiting[1..] + [p] && p in s.threads && s'.threads[p].status == Waiting
       && (forall t :: t in s.threads && t != p ==> s'.threads[t] == s.threads[t])
       && (forall t :: t in s.threads ==> s'.threads[t].parent == s.threads[t].parent)
  }

  lemma DemoteShape(s: State, c: nat)
    requires WellFormed(s) && c < |s.cores| && s.cores[c].phase.Executing? && s.waiting != []
    requires s.cores[c].runningThread.Some? && WellFormed(Pop(s))
    ensures Demoted(s, Demote(Pop(s), c), c) && WellFormed(Demote(Pop(s), c))
  {
    hide AnyRunning;
  }

  lemma DemoteElsewhere(s: State, s': State, c: nat)
    requires CoresOk(s) && Demoted(s, s', c)
    ensures CoresElsewhere(s', c)
  {
    assert Holds(s.cores[c]) == s.cores[c].runningThread;
  }

  lemma DemotePlaces(s: State, s': State, c: nat)
    requires CoresOk(s) && Accounted(s) && Demoted(s, s', c)
    requires forall u :: u in s.waiting <==> u == s.waiting[0] || u in Pop(s).waiting
    ensures AccountedBut(s', c, s.waiting[0])
  {
    hide CoresOk;
    var p := s.cores[c].runningThread.value;
    assert Holds(s.cores[c]) == Some(p);
    forall u: Tid | Held(s, u) && u != p ensures HeldElsewhere(s', c, u) {
      var d :| 0 <= d < |s.cores| && Holds(s.cores[d]) == Some(u);
      assert Holds(s'.cores[d]) == Some(u) && d != c;
    }
  }

  lemma ChooseProcesses(s: State, c: nat, t: Tid)
    requires WellFormed(s) && ProcessesOk(s) && c < |s.cores| && t in s.threads
    ensures ProcessesOk(Choose(s, c, t))
  {
    hide AnyRunning;
    var s' := Choose(s, c, t);
    forall q | q in s'.processes
      ensures s'.processes[q].status == if AnyRunning(s'.threads, s'.processes[q].threads) then Running else Waiting
    {
      if q == s.threads[t].parent {
        OneRunning(s'.threads, s'.processes[q].threads, t);
      } else {
        assert t !in s.processes[q].threads;
        AnyRunningSame(s.threads, s'.threads, s.processes[q].threads);
      }
    }
  }

  lemma ChooseInv(s: State, c: nat, t: Tid)
    requires Between(s, c, t)
    ensures Inv(Choose(s, c, t))
  {
    hide ProcessesOk, CoresElsewhere, CoresOk, Accounted, AccountedBut;
    ChooseProcesses(s, c, t);
    ChooseCores(s, c, t);
    ChooseAccounted(s, c, t);
  }

  lemma ChooseCores(s: State, c: nat, t: Tid)
    requires Between(s, c, t)
    ensures CoresOk(Choose(s, c, t))
  {
    hide ProcessesOk, Accounted, AccountedBut, QueueOk;
    var s' := Choose(s, c, t);
    assert Holds(s'.cores[c]) == Some(t);
    forall d | 0 <= d < |s.cores| && d != c ensures s'.cores[d] == s.cores[d] && Holds(s'.cores[d]) != Some(t) {
    }
  }

  lemma ChooseAccounted(s: State, c: nat, t: Tid)
    requires Between(s, c, t)
    ensures Accounted(Choose(s, c, t))
  {
    hide ProcessesOk, CoresElsewhere, CoresOk, QueueOk;
    var s' := Choose(s, c, t);
    forall u: Tid | HeldElsewhere(s, c, u) ensures Held(s', u) {
      var d :| 0 <= d < |s.cores| && d != c && Holds(s.cores[d]) == Some(u);
      assert Holds(s'.cores[d]) == Some(u);
    }
    assert Holds(s'.cores[c]) == Some(t);
  }

  lemma LockedInv(s: State, c: nat)
    requires Inv(s) && c < |s.cores| && s.cores[c].phase.Executing?
    ensures Inv(Locked(s, c))
  {
    hide CoresOk, Accounted, ProcessesOk, QueueOk, Between, Choose, Demote;
    if s.waiting == [] {
      if s.cores[c].runningThread.Some? {
        LockedKeeps(s, c);
        KeepRunning(s, c);
      }
    } else {
      LockedSwitches(s, c);
      if s.cores[c].runningThread.None? {
        PopBetween(s, c);
        ChooseInv(Pop(s), c, s.waiting[0]);
      } else {
        DemoteBetween(s, c);
        ChooseInv(Demote(Pop(s), c), c, s.waiting[0]);
      }
    }
  }

  /** `s'` has the threads of `s`, with their statuses and parents, and perhaps more that wait; the rest is the same. */
  ghost predicate Extends(s: State, s': State) {
    && s'.waiting == s.waiting && s'.cores == s.cores && s'.admitted == s.admitted
    && (forall p :: p in s.processes ==> p in s'.processes && s'.processes[p].home == s.processes[p].home)
    && (forall t :: t in s.threads ==>
          t in s'.threads && s'.threads[t].status == s.threads[t].status && s'.threads[t].parent == s.threads[t].parent)
    && (forall t :: t in s'.threads && t !in s.threads ==>
          s'.threads[t].status == Waiting && s'.threads[t].parent in s'.processes)
  }

  lemma ExtendsWellFormed(s: State, s': State)
    requires WellFormed(s) && Extends(s, s')
    ensures WellFormed(s')
  {
  }

  lemma ExtendsQueue(s: State, s': State)
    requires QueueOk(s) && Extends(s, s')
    ensures QueueOk(s')
  {
  }

  lemma ExtendsCores(s: State, s': State)
    requires CoresOk(s) && Extends(s, s')
    ensures CoresOk(s')
  {
  }

  lemma ExtendsAccounted(s: State, s': State)
    requires Accounted(s) && Extends(s, s')
    ensures Accounted(s')
  {
    SameHolders(s, s');
  }

  lemma ExtendsInv(s: State, s': State)
    requires Inv(s) && Extends(s, s') && ProcessesOk(s')
    ensures Inv(s')
  {
    hide WellFormed, QueueOk, CoresOk, Accounted, ProcessesOk, Extends;
    ExtendsWellFormed(s, s');
    ExtendsQueue(s, s');
    ExtendsCores(s, s');
    ExtendsAccounted(s, s');
  }

  /** Saved registers play no part in the invariant. */
  lemma RegsInv(s: State, p: Tid, ctx: Context)
    requires Inv(s) && p in s.threads
    ensures Inv(s.(threads := s.threads[p := s.threads[p].(regs := ctx)]))
  {
    hide QueueOk, CoresOk, Accounted, ProcessesOk;
    var s' := s.(threads := s.threads[p := s.threads[p].(regs := ctx)]);
    StatusKept(s, s');
    ExtendsInv(s, s');
  }

  lemma KeepRunning(s: State, c: nat)
    requires Inv(s) && c < |s.cores| && s.cores[c].phase.Executing? && s.cores[c].runningThread.Some?
    ensures s.cores[c].runningThread.value in s.threads && Inv(KeepOn(s, c, s.cores[c].runningThread.value))
  {
    hide ProcessesOk, Accounted, QueueOk;
    var p := s.cores[c].runningThread.value;
    assert Holds(s.cores[c]) == Some(p);
    RegsInv(s, p, s.cores[c].cpu);
    var s1 := s.(threads := s.threads[p := s.threads[p].(regs := s.cores[c].cpu)]);
    CoreStepInv(s1, c, s1.cores[c].(phase := Chosen(p)));
  }

  lemma SameHolders(s: State, s': State)
    requires |s'.cores| == |s.cores| && forall c :: 0 <= c < |s.cores| ==> Holds(s'.cores[c]) == Holds(s.cores[c])
    ensures forall u :: Held(s', u) <==> Held(s, u)
  {
  }

  lemma AddProcessInv(s: State, pid: Pid, home: Home)
    requires Inv(s) && pid !in s.processes
    ensures Inv(AddProcess(s, pid, home))
  {
    hide WellFormed, QueueOk, CoresOk, Accounted, ProcessesOk;
    AddProcessProcesses(s, pid, home);
    ExtendsInv(s, AddProcess(s, pid, home));
  }

  lemma AddProcessProcesses(s: State, pid: Pid, home: Home)
    requires ProcessesOk(s) && pid !in s.processes
    ensures ProcessesOk(AddProcess(s, pid, home))
  {
    hide AnyRunning;
    NoneRunning(s.threads);
  }

  lemma NoneRunning(threads: map<Tid, Thread>)
    ensures !AnyRunning(threads, [])
  {
  }

  lemma AddThreadInv(s: State, pid: Pid, tid: Tid, ctx: Context)
    requires Inv(s) && pid in s.processes && tid !in s.threads
    ensures Inv(AddThread(s, pid, tid, ctx))
  {
    hide WellFormed, QueueOk, CoresOk, Accounted, ProcessesOk;
    AddThreadProcesses(s, pid, tid, ctx);
    ExtendsInv(s, AddThread(s, pid, tid, ctx));
  }

  lemma AddThreadProcesses(s: State, pid: Pid, tid: Tid, ctx: Context)
    requires ProcessesOk(s) && pid in s.processes && tid !in s.threads
    ensures ProcessesOk(AddThread(s, pid, tid, ctx))
  {
    hide AnyRunning;
    var s' := AddThread(s, pid, tid, ctx);
    forall p | p in s.processes
      ensures AnyRunning(s'.threads, s'.processes[p].threads) == AnyRunning(s.threads, s.processes[p].threads)
    {
      AnyRunningSame(s.threads, s'.threads, s.processes[p].threads);
      OneMoreWaiting(s'.threads, s.processes[p].threads, tid);
    }
  }

  lemma OneRunning(threads: map<Tid, Thread>, l: seq<Tid>, t: Tid)
    requires t in l && t in threads && threads[t].status == Running
    ensures AnyRunning(threads, l)
  {
  }

  lemma OneMoreWaiting(threads: map<Tid, Thread>, l: seq<Tid>, t: Tid)
    requires t in threads && threads[t].status == Waiting
    ensures AnyRunning(threads, l + [t]) == AnyRunning(threads, l)
  {
    if u :| u in l && u in threads && threads[u].status == Running {
      assert u in l + [t];
    }
  }

  lemma EnqueueInv(s: State, t: Tid)
    requires Inv(s) && t in s.threads && t !in s.admitted
    ensures Inv(s.(waiting := s.waiting + [t], admitted := s.admitted + {t}))
  {
    hide ProcessesOk, QueueOk, WellFormed, CoresOk, Accounted;
    var s' := s.(waiting := s.waiting + [t], admitted := s.admitted + {t});
    StatusKept(s, s');
    EnqueueQueue(s, t);
    EnqueueCores(s, t);
    EnqueueAccounted(s, t);
  }

  lemma EnqueueCores(s: State, t: Tid)
    requires CoresOk(s)
    ensures CoresOk(s.(waiting := s.waiting + [t], admitted := s.admitted + {t}))
  {
  }

  lemma EnqueueAccounted(s: State, t: Tid)
    requires Accounted(s) && t in s.threads
    ensures Accounted(s.(waiting := s.waiting + [t], admitted := s.admitted + {t}))
  {
    var s' := s.(waiting := s.waiting + [t], admitted := s.admitted + {t});
    SameHolders(s, s');
    assert t == s'.waiting[|s.waiting|];
    forall u | u in s.waiting ensures u in s'.waiting {
    }
  }

  lemma EnqueueQueue(s: State, t: Tid)
    requires WellFormed(s) && QueueOk(s) && CoresOk(s) && Accounted(s) && t in s.threads && t !in s.admitted
    ensures WellFormed(s.(waiting := s.waiting + [t], admitted := s.admitted + {t}))
    ensures QueueOk(s.(waiting := s.waiting + [t], admitted := s.admitted + {t}))
  {
    var s' := s.(waiting := s.waiting + [t], admitted := s.admitted + {t});
    assert s.threads[t].status == Waiting;
    assert forall i :: 0 <= i < |s.waiting| ==> s'.waiting[i] == s.waiting[i] && s.waiting[i] in s.admitted;
    assert s'.waiting[|s.waiting|] == t;
  }

  /** Steps that touch one core only, and not what it holds. */
  lemma CoreStepInv(s: State, c: nat, core: Core)
    requires Inv(s) && c < |s.cores| && Holds(core) == Holds(s.cores[c])
    requires core.runningThread.Some? ==>
      && core.runningThread.value in s.threads && core.runningProcess.Some? && core.runningProcess.value in s.processes
    requires !core.phase.Executing? ==> core.phase.thread in s.threads
    requires !core.phase.Chosen? && core.runningThread.Some? ==> AtHome(s, core)
    requires core.phase.Published? ==> core.runningThread.Some?
    ensures Inv(s.(cores := s.cores[c := core]))
  {
    hide ProcessesOk, Accounted, QueueOk;
    var s' := s.(cores := s.cores[c := core]);
    AccountedKept(s, s');
    StatusKept(s, s');
    QueueKept(s, s');
    assert forall d :: 0 <= d < |s.cores| && d != c ==> s'.cores[d] == s.cores[d];
  }

  lemma QueueKept(s: State, s': State)
    requires QueueOk(s) && s'.threads == s.threads && s'.waiting == s.waiting && s'.admitted == s.admitted
    ensures QueueOk(s')
  {
  }

  /** `Accounted` reads which threads cores hold, not how. */
  lemma AccountedKept(s: State, s': State)
    requires Accounted(s) && s'.threads == s.threads && s'.waiting == s.waiting && s'.admitted == s.admitted
    requires |s'.cores| == |s.cores| && forall c :: 0 <= c < |s.cores| ==> Holds(s'.cores[c]) == Holds(s.cores[c])
    ensures Accounted(s')
  {
    SameHolders(s, s');
  }

  /** Every step of every core keeps the invariant. */
  lemma StepInv(s: State, e: Event)
    requires Inv(s) && Enabled(s, e)
    ensures Inv(Next(s, e))
  {
    hide ProcessesOk, Accounted, QueueOk, Locked, AddThread, AddProcess;
    match e
    case Reserve(pid, home) => AddProcessInv(s, pid, home);
    case Spawn(pid, tid, ctx) => AddThreadInv(s, pid, tid, ctx);
    case Fork(c, _, pid, tid) => AddThreadInv(s, pid, tid, s.cores[c].cpu.(rax := 0));
    case Enqueue(tid) => EnqueueInv(s, tid);
    case Reschedule(c) => LockedInv(s, c);
    case Publish(c) =>
      var t := s.cores[c].phase.thread;
      assert Holds(s.cores[c]) == Some(t);
      CoreStepInv(s, c, TakesNote(s, s.cores[c], t));
    case Resume(c, tid) =>
      assert Holds(s.cores[c]) == Some(tid);
      CoreStepInv(s, c, s.cores[c].(phase := Executing, cpu := s.threads[tid].regs));
    case Execute(c, _, ctx) => CoreStepInv(s, c, s.cores[c].(cpu := ctx));
    case Idle(c, ctx) => CoreStepInv(s, c, s.cores[c].(cpu := ctx));
  }

  // ---------------------------------------------------------------- whole runs

  ghost predicate Runs(s: State, es: seq<Event>, s': State)
    decreases |es|
  {
    if es == [] then s' == s
    else WellFormed(s) && Enabled(s, es[0]) && Runs(Next(s, es[0]), es[1..], s')
  }

  lemma {:induction false} RunInv(s: State, es: seq<Event>, s': State)
    requires Inv(s) && Runs(s, es, s')
    ensures Inv(s')
    decreases |es|
  {
    hide Inv, Next;
    if es != [] {
      StepInv(s, es[0]);
      RunInv(Next(s, es[0]), es[1..], s');
    }
  }

  ghost predicate QueuedOnce(s: State, t: Tid) {
    exists i :: 0 <= i < |s.waiting| && s.waiting[i] == t && forall j :: 0 <= j < |s.waiting| && s.waiting[j] == t ==>
      j == i
  }

  ghost predicate HeldOnce(s: State, t: Tid) {
    exists c :: 0 <= c < |s.cores| && Holds(s.cores[c]) == Some(t) &&
      forall d :: 0 <= d < |s.cores| && Holds(s.cores[d]) == Some(t) ==> d == c
  }

  /**
   However the cores interleave, every thread ever queued is on the queue once, waiting, and on no core,
   or is the thread of exactly one core, running, and not on the queue - also while that core's own record
   still names its previous thread. The run may start in any state that meets the invariant, so in one whose
   processes have several threads.
   */
  lemma NoThreadLostOrDuplicated(s0: State, es: seq<Event>, s: State, t: Tid)
    requires Inv(s0) && Runs(s0, es, s) && t in s.admitted
    ensures t in s.threads
    ensures (QueuedOnce(s, t) && !Held(s, t) && s.threads[t].status == Waiting)
         || (HeldOnce(s, t) && t !in s.waiting && s.threads[t].status == Running)
  {
    hide Next, Runs, QueueOk, CoresOk, ProcessesOk, QueuedOnce, HeldOnce;
    RunInv(s0, es, s);
    if t in s.waiting {
      QueuedPlace(s, t);
    } else {
      HeldPlace(s, t);
    }
  }

  lemma QueuedPlace(s: State, t: Tid)
    requires QueueOk(s) && CoresOk(s) && t in s.waiting
    ensures t in s.threads && QueuedOnce(s, t) && !Held(s, t) && s.threads[t].status == Waiting
  {
    var i :| 0 <= i < |s.waiting| && s.waiting[i] == t;
  }

  lemma HeldPlace(s: State, t: Tid)
    requires CoresOk(s) && Held(s, t)
    ensures t in s.threads && HeldOnce(s, t) && s.threads[t].status == Running
  {
    var c :| 0 <= c < |s.cores| && Holds(s.cores[c]) == Some(t);
  }

  /**
   Whenever the lock is free, a process is marked running exactly when one of its threads is, however many it has
   and whether they give way to each other or to threads of other processes.
   */
  lemma ProcessRunningIffThreadRunning(s0: State, es: seq<Event>, s: State, p: Pid)
    requires Inv(s0) && Runs(s0, es, s) && p in s.processes
    ensures s.processes[p].status == Running <==>
      exists t :: t in s.threads && s.threads[t].parent == p && s.threads[t].status == Running
  {
    hide CoresOk, Accounted, QueueOk, Next, Runs;
    RunInv(s0, es, s);
    if t :| t in s.threads && s.threads[t].parent == p && s.threads[t].status == Running {
      assert t in s.processes[p].threads;
    }
  }

  /** A state these theorems may start from: any number of threads of one process, all of them queued. */
  function Together(cores: seq<Context>, pid: Pid, home: Home, tids: seq<Tid>, ctx: Context): State {
    Initial(cores).(
      waiting := tids,
      threads := map t | t in tids :: Thread(Waiting, pid, ctx),
      processes := map[pid := Process(Waiting, tids, home)],
      admitted := set t | t in tids)
  }

  lemma TogetherInv(cores: seq<Context>, pid: Pid, home: Home, tids: seq<Tid>, ctx: Context)
    requires forall i, j :: 0 <= i < j < |tids| ==> tids[i] != tids[j]
    ensures Inv(Together(cores, pid, home, tids, ctx))
  {
  }

  /**
   A thread that gives way to another one of its own process: the process, whose status is set to waiting and back
   inside the locked section, is the same when the lock is released.
   */
  lemma SiblingTakesOver(s: State, c: nat, t: Tid)
    requires Inv(s) && ExecutingOn(s, c, t) && s.waiting != [] && t in s.threads && s.waiting[0] in s.threads
    requires s.threads[s.waiting[0]].parent == s.threads[t].parent
    ensures var u, s' := s.waiting[0], Locked(s, c);
      && u != t && s'.threads.Keys == s.threads.Keys && s'.processes == s.processes &&
         s'.waiting == s.waiting[1..] + [t]
      && s'.threads[t].status == Waiting && s'.threads[u].status == Running
  {
    hide ProcessesOk, Accounted, QueueOk, Locked, AnyRunning;
    LockedSwitches(s, c);
    assert Holds(s.cores[c]) == Some(t);
    RunningParent(s, t);
    var proc := s.threads[t].parent;
    assert s.processes[proc := s.processes[proc].(status := Running)] == s.processes;
  }

  // ---------------------------------------------------------------- page maps

  /** No step changes the number, the page map or the directory of a process. */
  lemma HomesKept(s: State, e: Event, p: Pid)
    requires Inv(s) && Enabled(s, e) && p in s.processes
    ensures p in Next(s, e).processes && Next(s, e).processes[p].home == s.processes[p].home
  {
    hide ProcessesOk, Accounted, QueueOk, CoresOk, AnyRunning;
  }

  lemma {:induction false} HomesKeptOver(s0: State, es: seq<Event>, s: State, p: Pid)
    requires Inv(s0) && Runs(s0, es, s) && p in s0.processes
    ensures p in s.processes && s.processes[p].home == s0.processes[p].home
    decreases |es|
  {
    hide Inv, Next, Enabled, WellFormed;
    if es != [] {
      HomesKept(s0, es[0], p);
      StepInv(s0, es[0]);
      HomesKeptOver(Next(s0, es[0]), es[1..], s, p);
    }
  }

  /** A thread executes with the page map and the directory its process had all along. */
  lemma ExecutesAtHome(s0: State, es: seq<Event>, s: State, c: nat, t: Tid)
    requires Inv(s0) && Runs(s0, es, s) && ExecutingOn(s, c, t) && t in s.threads && s.threads[t].parent in s0.processes
    ensures s.cores[c].home == Some(s0.processes[s.threads[t].parent].home)
  {
    hide ProcessesOk, Accounted, QueueOk, Runs, Next;
    RunInv(s0, es, s);
    HomesKeptOver(s0, es, s, s.threads[t].parent);
  }

  // ---------------------------------------------------------------- private registers

  /**
   A reference machine without any scheduler: every thread has registers of its own, set when it is created
   and changed only by its own execution.
   */
  ghost function Private(regs: map<Tid, Context>, e: Event): map<Tid, Context> {
    match e
    case Spawn(_, tid, ctx) => regs[tid := ctx]
    case Fork(_, parent, _, tid) => if parent in regs then regs[tid := regs[parent].(rax := 0)] else regs
    case Execute(_, tid, ctx) => regs[tid := ctx]
    case _ => regs
  }

  ghost function PrivateRun(regs: map<Tid, Context>, es: seq<Event>): map<Tid, Context>
    decreases |es|
  {
    if es == [] then regs else PrivateRun(Private(regs, es[0]), es[1..])
  }

  ghost predicate OnCpu(s: State, t: Tid) {
    exists c: nat :: ExecutingOn(s, c, t)
  }

  /** A thread's private registers are in the core that executes it, or else saved in the thread. */
  ghost predicate Agrees(s: State, regs: map<Tid, Context>) {
    && regs.Keys == s.threads.Keys
    && (forall c: nat, t: Tid :: ExecutingOn(s, c, t) ==> t in regs && s.cores[c].cpu == regs[t])
    && (forall t :: t in s.threads && !OnCpu(s, t) ==> s.threads[t].regs == regs[t])
  }

  /** What a locked section does to registers: it saves those of the thread the core was executing. */
  lemma LockedRegs(s: State, c: nat)
    requires Inv(s) && c < |s.cores| && s.cores[c].phase.Executing?
    ensures var s' := Locked(s, c);
      && |s'.cores| == |s.cores| && s'.threads.Keys == s.threads.Keys
      && (forall d :: 0 <= d < |s.cores| && d != c ==> s'.cores[d] == s.cores[d])
      && (s'.cores[c].phase.Executing? ==> s' == s && s.cores[c].runningThread.None?)
      && (forall t :: t in s.threads && s.cores[c].runningThread != Some(t) ==> s'.threads[t].regs == s.threads[t].regs)
      && (s.cores[c].runningThread.Some? ==> s'.threads[s.cores[c].runningThread.value].regs == s.cores[c].cpu)
  {
    hide ProcessesOk, Accounted, AnyRunning;
    if s.waiting != [] {
      LockedSwitches(s, c);
    } else if s.cores[c].runningThread.Some? {
      LockedKeeps(s, c);
    }
  }

  lemma LockedAgrees(s: State, regs: map<Tid, Context>, c: nat)
    requires Inv(s) && Agrees(s, regs) && c < |s.cores| && s.cores[c].phase.Executing?
    ensures Agrees(Locked(s, c), regs)
  {
    hide ProcessesOk, Accounted, QueueOk, Locked, CoresOk;
    LockedRegs(s, c);
    var s' := Locked(s, c);
    forall d: nat, t: Tid | ExecutingOn(s', d, t) ensures t in regs && s'.cores[d].cpu == regs[t] {
      assert ExecutingOn(s, d, t);
    }
    forall t | t in s'.threads && !OnCpu(s', t) ensures s'.threads[t].regs == regs[t] {
      if OnCpu(s, t) {
        var d: nat :| ExecutingOn(s, d, t);
        assert d != c ==> ExecutingOn(s', d, t);
      }
    }
  }

  lemma CoreAgrees(s: State, regs: map<Tid, Context>, c: nat, core: Core, regs': map<Tid, Context>)
    requires Agrees(s, regs) && c < |s.cores| && regs'.Keys == regs.Keys
    requires forall t :: t in regs && Some(t) != core.runningThread ==> regs'[t] == regs[t]
    requires forall d: nat, t: Tid :: ExecutingOn(s, d, t) && d != c ==> core.runningThread != Some(t)
    requires core.phase.Executing? && core.runningThread.Some? ==>
      core.runningThread.value in regs' && core.cpu == regs'[core.runningThread.value]
    requires !core.phase.Executing? ==> regs' == regs && !s.cores[c].phase.Executing?
    requires s.cores[c].phase.Executing? ==> s.cores[c].runningThread == core.runningThread
    ensures Agrees(s.(cores := s.cores[c := core]), regs')
  {
    var s' := s.(cores := s.cores[c := core]);
    forall d: nat, t: Tid | ExecutingOn(s', d, t) ensures t in regs' && s'.cores[d].cpu == regs'[t] {
      assert d != c ==> ExecutingOn(s, d, t);
    }
    forall t | t in s'.threads && !OnCpu(s', t) ensures s'.threads[t].regs == regs'[t] {
      if OnCpu(s, t) {
        var d: nat :| ExecutingOn(s, d, t);
        assert ExecutingOn(s', d, t);
      }
      assert core.phase.Executing? && core.runningThread == Some(t) ==> ExecutingOn(s', c, t);
    }
  }

  lemma AddThreadAgrees(s: State, regs: map<Tid, Context>, pid: Pid, tid: Tid, ctx: Context)
    requires Inv(s) && Agrees(s, regs) && pid in s.processes && tid !in s.threads
    ensures Agrees(AddThread(s, pid, tid, ctx), regs[tid := ctx])
  {
    hide ProcessesOk, Accounted, QueueOk, CoresOk;
    var s' := AddThread(s, pid, tid, ctx);
    forall d: nat, t: Tid | ExecutingOn(s', d, t) ensures t != tid && ExecutingOn(s, d, t) {
    }
    forall t: Tid ensures OnCpu(s, t) ==> OnCpu(s', t) {
      if OnCpu(s, t) {
        var d: nat :| ExecutingOn(s, d, t);
        assert ExecutingOn(s', d, t);
      }
    }
  }

  lemma SameCoresAgree(s: State, s': State, regs: map<Tid, Context>)
    requires Agrees(s, regs) && s'.cores == s.cores && s'.threads == s.threads
    ensures Agrees(s', regs)
  {
    assert forall d: nat, t: Tid :: ExecutingOn(s', d, t) <==> ExecutingOn(s, d, t);
    assert forall t: Tid :: OnCpu(s', t) <==> OnCpu(s, t);
  }

  lemma StepAgrees(s: State, regs: map<Tid, Context>, e: Event)
    requires Inv(s) && Agrees(s, regs) && Enabled(s, e)
    ensures Agrees(Next(s, e), Private(regs, e))
  {
    hide ProcessesOk, Accounted, QueueOk, Locked, AddThread;
    match e
    case Reserve(pid, home) => SameCoresAgree(s, AddProcess(s, pid, home), regs);
    case Spawn(pid, tid, ctx) => AddThreadAgrees(s, regs, pid, tid, ctx);
    case Fork(c, parent, pid, tid) =>
      assert ExecutingOn(s, c, parent);
      AddThreadAgrees(s, regs, pid, tid, s.cores[c].cpu.(rax := 0));
    case Enqueue(tid) => SameCoresAgree(s, Next(s, e), regs);
    case Reschedule(c) => LockedAgrees(s, regs, c);
    case Publish(c) =>
      var t := s.cores[c].phase.thread;
      HolderNotElsewhere(s, c, t);
      CoreAgrees(s, regs, c, TakesNote(s, s.cores[c], t), regs);
    case Resume(c, tid) =>
      HolderNotElsewhere(s, c, tid);
      CoreAgrees(s, regs, c, s.cores[c].(phase := Executing, cpu := s.threads[tid].regs), regs);
    case Execute(c, tid, ctx) =>
      HolderNotElsewhere(s, c, tid);
      CoreAgrees(s, regs, c, s.cores[c].(cpu := ctx), regs[tid := ctx]);
    case Idle(c, ctx) => CoreAgrees(s, regs, c, s.cores[c].(cpu := ctx), regs);
  }

  lemma HolderNotElsewhere(s: State, c: nat, t: Tid)
    requires Inv(s) && c < |s.cores| && Holds(s.cores[c]) == Some(t)
    ensures t in s.threads
    ensures forall d: nat :: ExecutingOn(s, d, t) ==> d == c
    ensures s.cores[c].phase.Published? ==> s.cores[c].runningThread == Some(t)
  {
    hide ProcessesOk, Accounted, QueueOk;
    forall d: nat | ExecutingOn(s, d, t) ensures d == c {
      assert Holds(s.cores[d]) == Some(t);
    }
  }

  lemma {:induction false} RunAgrees(s: State, regs: map<Tid, Context>, es: seq<Event>, s': State)
    requires Inv(s) && Agrees(s, regs) && Runs(s, es, s')
    ensures Agrees(s', PrivateRun(regs, es))
    decreases |es|
  {
    hide Inv, Next, Agrees, Private;
    if es != [] {
      StepInv(s, es[0]);
      StepAgrees(s, regs, es[0]);
      RunAgrees(Next(s, es[0]), Private(regs, es[0]), es[1..], s');
    }
  }

  lemma {:induction false} RunsSplit(s: State, es: seq<Event>, es': seq<Event>, s'': State) returns (s': State)
    requires Runs(s, es + es', s'')
    ensures Runs(s, es, s') && Runs(s', es', s'')
    decreases |es|
  {
    hide Next, Enabled, WellFormed;
    if es == [] {
      assert es + es' == es';
      s' := s;
    } else {
      assert (es + es')[0] == es[0] && (es + es')[1..] == es[1..] + es';
      s' := RunsSplit(Next(s, es[0]), es[1..], es', s'');
    }
  }

  /** The events in which thread `t` itself executes or is created. */
  predicate Sets(e: Event, t: Tid) {
    match e
    case Spawn(_, tid, _) => tid == t
    case Fork(_, _, _, tid) => tid == t
    case Execute(_, tid, _) => tid == t
    case _ => false
  }

  lemma {:induction false} PrivateUntouched(regs: map<Tid, Context>, es: seq<Event>, t: Tid)
    requires t in regs && forall i :: 0 <= i < |es| ==> !Sets(es[i], t)
    ensures t in PrivateRun(regs, es) && PrivateRun(regs, es)[t] == regs[t]
    decreases |es|
  {
    if es != [] {
      assert !Sets(es[0], t);
      assert forall i :: 0 <= i < |es| - 1 ==> es[1..][i] == es[i + 1];
      PrivateUntouched(Private(regs, es[0]), es[1..], t);
    }
  }

  lemma {:induction false} PrivateRunLast(regs: map<Tid, Context>, es: seq<Event>, e: Event)
    ensures PrivateRun(regs, es + [e]) == Private(PrivateRun(regs, es), e)
    decreases |es|
  {
    hide Private;
    if es == [] {
      assert es + [e] == [e] && [e][1..] == [];
    } else {
      assert (es + [e])[0] == es[0] && (es + [e])[1..] == es[1..] + [e];
      PrivateRunLast(Private(regs, es[0]), es[1..], e);
    }
  }

  lemma ReachedAgrees(cores: seq<Context>, es: seq<Event>, s: State)
    requires Runs(Initial(cores), es, s)
    ensures Inv(s) && Agrees(s, PrivateRun(map[], es))
  {
    InitialInv(cores);
    assert Agrees(Initial(cores), map[]);
    RunInv(Initial(cores), es, s);
    RunAgrees(Initial(cores), map[], es, s);
  }

  /**
   A thread that last executed with registers `ctx` is resumed, on whichever core and after whatever the other
   threads and cores did in between, with exactly `ctx`.
   */
  lemma ResumedWithOwnContext(cores: seq<Context>, before: seq<Event>, c0: nat, t: Tid, ctx: Context,
                              meanwhile: seq<Event>, c: nat, s: State)
    requires Runs(Initial(cores), before + [Execute(c0, t, ctx)] + meanwhile + [Resume(c, t)], s)
    requires forall i :: 0 <= i < |meanwhile| ==> !Sets(meanwhile[i], t)
    ensures ExecutingOn(s, c, t) && s.cores[c].cpu == ctx
  {
    hide Inv, Agrees, Runs, Initial;
    var es := before + [Execute(c0, t, ctx)];
    PrivateRunLast(map[], before, Execute(c0, t, ctx));
    LastContextKept(cores, es, meanwhile, c, t, s);
  }

  /** A forked child first runs with the frame its parent had at the fork, except that `rax` is 0. */
  lemma ChildResumesFromFork(cores: seq<Context>, before: seq<Event>, c0: nat, parent: Tid, pid: Pid, child: Tid,
                             meanwhile: seq<Event>, c: nat, s: State) returns (atFork: State)
    requires Runs(Initial(cores), before + [Fork(c0, parent, pid, child)] + meanwhile + [Resume(c, child)], s)
    requires forall i :: 0 <= i < |meanwhile| ==> !Sets(meanwhile[i], child)
    ensures Runs(Initial(cores), before, atFork) && ExecutingOn(atFork, c0, parent)
    ensures ExecutingOn(s, c, child) && s.cores[c].cpu == atFork.cores[c0].cpu.(rax := 0)
  {
    hide Inv;
    var fork := Fork(c0, parent, pid, child);
    var es := before + [fork];
    assert before + [fork] + meanwhile + [Resume(c, child)] == before + ([fork] + meanwhile + [Resume(c, child)]);
    atFork := RunsSplit(Initial(cores), before, [fork] + meanwhile + [Resume(c, child)], s);
    assert ([fork] + meanwhile + [Resume(c, child)])[0] == fork;
    ReachedAgrees(cores, before, atFork);
    PrivateRunLast(map[], before, fork);
    LastContextKept(cores, es, meanwhile, c, child, s);
  }

  /**
   Registers a created thread may begin with: the program counter and code segment asked for, the flags, and a stack -
   for a user program the upper end of the user stack, for a kernel one the given frame in the direct map.
   */
  predicate StartsAs(ctx: Context, rip: nat, cs: nat, stack: nat) {
    && ctx.rip == rip && ctx.cs == cs && ctx.rax == 0
    && ctx.rflags == 0x202 && |ctx.others| == 14 && (forall i :: 0 <= i < 14 ==> ctx.others[i] == 0)
    && (if cs % 4 == 0 then ctx.ss == 0x10 && ctx.rsp == 0xffff_8000_0000_0000 + stack
        else ctx.ss == 0x23 && ctx.rsp == 0x8_0000_8000)
  }

  /** `s'` is `s` with a process and its only thread, which is to begin at `rip`. */
  ghost predicate Created(s: State, pid: Pid, home: Home, tid: Tid, rip: nat, cs: nat, stack: nat, s': State) {
    exists ctx :: StartsAs(ctx, rip, cs, stack) && Runs(s, [Reserve(pid, home), Spawn(pid, tid, ctx)], s')
  }

  /**
   The thread of a created process first runs as asked for, on whichever core and after whatever the others did in
   between.
   */
  lemma CreatedFirstRuns(cores: seq<Context>, before: seq<Event>, s0: State, pid: Pid, home: Home, tid: Tid,
                         rip: nat, cs: nat, stack: nat, s1: State, meanwhile: seq<Event>, c: nat, s: State)
    requires Runs(Initial(cores), before, s0) && Created(s0, pid, home, tid, rip, cs, stack, s1)
    requires Runs(s1, meanwhile + [Resume(c, tid)], s)
    requires forall i :: 0 <= i < |meanwhile| ==> !Sets(meanwhile[i], tid)
    ensures ExecutingOn(s, c, tid) && StartsAs(s.cores[c].cpu, rip, cs, stack)
    ensures s.cores[c].runningProcess == Some(pid) && s.cores[c].home == Some(home)
    ensures s.cores[c].cpu.rflags / 0x200 % 2 == 1
    ensures s.cores[c].cpu.ss % 4 == if cs % 4 == 0 then 0 else 3
  {
    hide Runs, Initial, StartsAs, ExecutingOn;
    var ctx :| StartsAs(ctx, rip, cs, stack) && Runs(s0, [Reserve(pid, home), Spawn(pid, tid, ctx)], s1);
    var es := before + [Reserve(pid, home)];
    RunsJoin(Initial(cores), before, s0, [Reserve(pid, home), Spawn(pid, tid, ctx)], s1);
    assert before + [Reserve(pid, home), Spawn(pid, tid, ctx)] == es + [Spawn(pid, tid, ctx)];
    RunsJoin(Initial(cores), es + [Spawn(pid, tid, ctx)], s1, meanwhile + [Resume(c, tid)], s);
    assert es + [Spawn(pid, tid, ctx)] + (meanwhile + [Resume(c, tid)])
        == es + [Spawn(pid, tid, ctx)] + meanwhile + [Resume(c, tid)];
    PrivateRunLast(map[], es, Spawn(pid, tid, ctx));
    LastContextKept(cores, es + [Spawn(pid, tid, ctx)], meanwhile, c, tid, s);
    StartFlags(ctx, rip, cs, stack);
    ReachedAgrees(cores, before, s0);
    FirstHome(s0, pid, home, tid, ctx, s1, meanwhile + [Resume(c, tid)], c, s);
  }

  /** The core that executes the thread of a process has the home the process was made with. */
  lemma FirstHome(s0: State, pid: Pid, home: Home, tid: Tid, ctx: Context, s1: State, es: seq<Event>, c: nat, s: State)
    requires Inv(s0) && Runs(s0, [Reserve(pid, home), Spawn(pid, tid, ctx)], s1)
    requires Runs(s1, es, s) && ExecutingOn(s, c, tid)
    ensures s.cores[c].runningProcess == Some(pid) && s.cores[c].home == Some(home)
  {
    hide ProcessesOk, Accounted, QueueOk;
    RunInv(s0, [Reserve(pid, home), Spawn(pid, tid, ctx)], s1);
    TwoEvents(s0, Reserve(pid, home), Spawn(pid, tid, ctx), s1);
    RunInv(s1, es, s);
    ParentKept(s1, es, s, tid);
    ExecutesAtHome(s1, es, s, c, tid);
    assert AtHome(s, s.cores[c]);
  }

  lemma TwoEvents(s: State, e: Event, e': Event, s'': State)
    requires Runs(s, [e, e'], s'')
    ensures WellFormed(s) && Enabled(s, e) && WellFormed(Next(s, e)) && Enabled(Next(s, e), e')
    ensures s'' == Next(Next(s, e), e')
  {
    hide Next, Enabled, WellFormed;
    assert [e, e'][1..] == [e'];
    assert Runs(Next(s, e), [e'], s'');
  }

  /** A thread stays with its process. */
  lemma {:induction false} ParentKept(s: State, es: seq<Event>, s': State, t: Tid)
    requires Inv(s) && Runs(s, es, s') && t in s.threads
    ensures t in s'.threads && s'.threads[t].parent == s.threads[t].parent
    decreases |es|
  {
    hide Inv, Next, Enabled, WellFormed;
    if es != [] {
      StepInv(s, es[0]);
      StepParent(s, es[0], t);
      ParentKept(Next(s, es[0]), es[1..], s', t);
    }
  }

  lemma StepParent(s: State, e: Event, t: Tid)
    requires Inv(s) && Enabled(s, e) && t in s.threads
    ensures t in Next(s, e).threads && Next(s, e).threads[t].parent == s.threads[t].parent
  {
    hide ProcessesOk, Accounted, QueueOk, CoresOk, AnyRunning;
  }

  /** Interrupts are enabled, and the stack segment has kernel or user privilege as the code segment has. */
  lemma StartFlags(ctx: Context, rip: nat, cs: nat, stack: nat)
    requires StartsAs(ctx, rip, cs, stack)
    ensures ctx.rflags / 0x200 % 2 == 1
    ensures ctx.ss % 4 == if cs % 4 == 0 then 0 else 3
  {
  }

  lemma {:induction false} RunsJoin(s: State, es: seq<Event>, s': State, es': seq<Event>, s'': State)
    requires Runs(s, es, s') && Runs(s', es', s'')
    ensures Runs(s, es + es', s'')
    decreases |es|
  {
    hide Next, Enabled, WellFormed;
    if es == [] {
      assert es + es' == es';
    } else {
      assert (es + es')[0] == es[0] && (es + es')[1..] == es[1..] + es';
      RunsJoin(Next(s, es[0]), es[1..], s', es', s'');
    }
  }

  lemma LastContextKept(cores: seq<Context>, es: seq<Event>, meanwhile: seq<Event>, c: nat, t: Tid, s: State)
    requires Runs(Initial(cores), es + meanwhile + [Resume(c, t)], s) && t in PrivateRun(map[], es)
    requires forall i :: 0 <= i < |meanwhile| ==> !Sets(meanwhile[i], t)
    ensures ExecutingOn(s, c, t) && s.cores[c].cpu == PrivateRun(map[], es)[t]
  {
    hide Enabled, WellFormed, Inv, Runs, Initial, Next, PrivateRun;
    var s1 := RunsSplit(Initial(cores), es + meanwhile, [Resume(c, t)], s);
    PrivateRunJoin(map[], es, meanwhile);
    PrivateUntouched(PrivateRun(map[], es), meanwhile, t);
    ReachedAgrees(cores, es + meanwhile, s1);
    ResumeStep(s1, c, t, s);
    ReachedAgrees(cores, es + meanwhile + [Resume(c, t)], s);
    PrivateRunLast(map[], es + meanwhile, Resume(c, t));
  }

  lemma ResumeStep(s: State, c: nat, t: Tid, s': State)
    requires Inv(s) && Runs(s, [Resume(c, t)], s')
    ensures ExecutingOn(s', c, t)
  {
    hide ProcessesOk, Accounted, QueueOk;
    assert Holds(s.cores[c]) == Some(t);
    assert Runs(Next(s, Resume(c, t)), [], s');
  }

  lemma {:induction false} PrivateRunJoin(regs: map<Tid, Context>, es: seq<Event>, es': seq<Event>)
    ensures PrivateRun(regs, es + es') == PrivateRun(PrivateRun(regs, es), es')
    decreases |es|
  {
    hide Private;
    if es == [] {
      assert es + es' == es';
    } else {
      assert (es + es')[0] == es[0] && (es + es')[1..] == es[1..] + es';
      PrivateRunJoin(Private(regs, es[0]), es[1..], es');
    }
  }

  // ---------------------------------------------------------------- bounded waiting

  function Reschedules(es: seq<Event>): nat
    decreases |es|
  {
    if es == [] then 0 else (if es[0].Reschedule? then 1 else 0) + Reschedules(es[1..])
  }

  lemma StepQueue(s: State, e: Event)
    requires Inv(s) && Enabled(s, e)
    ensures e.Reschedule? && s.waiting != [] ==>
      |s.waiting| <= |Next(s, e).waiting| + 1 && s.waiting[1..] <= Next(s, e).waiting
      && e.core < |Next(s, e).cores| && Next(s, e).cores[e.core].phase == Chosen(s.waiting[0])
    ensures !e.Reschedule? ==> s.waiting <= Next(s, e).waiting
  {
    hide ProcessesOk, Accounted, AnyRunning;
    if e.Reschedule? && s.waiting != [] {
      LockedSwitches(s, e.core);
    }
  }

  /** While fewer than `k + 1` locked sections run, a thread at position `k` moves up one place with each. */
  lemma {:induction false} MovesUp(s: State, es: seq<Event>, s': State, k: nat)
    requires Inv(s) && Runs(s, es, s') && k < |s.waiting| && Reschedules(es) <= k
    ensures k - Reschedules(es) < |s'.waiting| && s'.waiting[k - Reschedules(es)] == s.waiting[k]
    decreases |es|
  {
    hide Inv, Next, Enabled, WellFormed;
    if es != [] {
      var e := es[0];
      StepInv(s, e);
      StepQueue(s, e);
      var k' := if e.Reschedule? then k - 1 else k;
      assert e.Reschedule? ==> s.waiting[1..][k - 1] == s.waiting[k];
      MovesUp(Next(s, e), es[1..], s', k');
    }
  }

  /** The next locked section on core `c` chooses thread `t`. */
  ghost predicate Chooses(s: State, c: nat, t: Tid) {
    && WellFormed(s) && Enabled(s, Reschedule(c))
    && var s' := Next(s, Reschedule(c));
       c < |s'.cores| && s'.cores[c].phase == Chosen(t)
  }

  /**
   A thread at position `k` of the waiting queue is the one chosen by the `k + 1`-st locked section from now on,
   counted over all cores, whatever is queued in between.
   */
  lemma ChosenAfterItsTurn(s: State, es: seq<Event>, s': State, k: nat, c: nat)
    requires Inv(s) && k < |s.waiting| && Reschedules(es) == k && Runs(s, es, s') && Enabled(s', Reschedule(c))
    ensures Inv(s') && Chooses(s', c, s.waiting[k])
  {
    hide WellFormed, QueueOk, CoresOk, Accounted, ProcessesOk, Next, Enabled, Runs;
    RunInv(s, es, s');
    MovesUp(s, es, s', k);
    StepQueue(s', Reschedule(c));
  }
}
