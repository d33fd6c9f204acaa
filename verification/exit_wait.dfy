/** fork, exit and wait for single-threaded processes (kernel/proc.c), as steps of
    processes and of the scheduler between taking and releasing locks. */
module ExitWait {
  datatype PState = Unused | Used | Zombie

  /** Where a process is in the code. */
  datatype Place =
    | Idle                              // no process in this slot
    | Embryo(creator: nat)              // allocated by fork, not started
    | Running
    | Forked(c: nat) | ForkWaits(c: nat) | ForkParented(c: nat)
    | Reparenting(k: nat)               // exit, holding wait_lock
    | Orphaned                          // exit, children given away
    | Marked                            // exit, state is ZOMBIE
    | Leaving                           // exit, holding wait_lock and its t_lock
    | Switching                         // exit, about to switch away, holding its t_lock
    | Gone                              // off the CPU; the scheduler has dropped t_lock
    | Waiting(k: nat, kids: bool)       // wait, holding wait_lock
    | Looking(k: nat, kids: bool)       // wait, also holding the lock of slot k
    | Reaping(k: nat)                   // wait, has found a zombie, in freeproc
    | Freeing(k: nat)                   // freeproc, holding the t_lock of slot k
    | Freed(k: nat)                     // freeproc, that thread freed
    | Sleeping                          // asleep in wait

  /** `mem`: the page table and the trapframe page have not been released. */
  datatype Proc = Proc(state: PState, pid: nat, xstate: int, parent: int, mem: bool, at: Place, status: int)

  datatype Reaped = Reaped(parent: nat, pid: nat, status: int)

  const NOBODY: int := -1
  const SCHEDULER: int := -2
  const INIT: nat := 0

  datatype State = State(
    procs: seq<Proc>,
    waitLock: int,
    plock: seq<int>,
    tlock: seq<int>,
    killed: seq<bool>,
    nextpid: nat,
    exits: map<nat, int>,     // the status each exiting process passed to exit
    reaps: seq<Reaped>)       // who has been reaped, by whom, with which status

  datatype Step =
    | Alloc(i: nat, c: nat) | ForkLock(i: nat) | ForkParent(i: nat) | ForkStart(i: nat)
    | ExitStart(i: nat, status: int) | Reparent(i: nat) | ReparentEnd(i: nat) | MarkZombie(i: nat)
    | OwnLock(i: nat) | DropWait(i: nat) | Switch(i: nat)
    | WaitStart(i: nat) | WaitSkip(i: nat) | WaitLock(i: nat) | WaitNot(i: nat) | WaitFound(i: nat) | WaitFail(i: nat)
    | ReapLock(i: nat) | ReapThread(i: nat) | ReapFree(i: nat) | WaitNone(i: nat) | WaitSleep(i: nat) | WaitWake(i: nat)
    | SchedTake(i: nat) | SchedDrop(i: nat) | Kill(i: nat)

  predicate Shape(s: State) {
    |s.plock| == |s.tlock| == |s.killed| == |s.procs| && |s.procs| > 0
  }

  predicate Enabled(s: State, step: Step)
    requires Shape(s)
  {
    step.i < |s.procs| &&
    var p, n := s.procs[step.i], |s.procs|;
    match step
    case Alloc(i, c) => p.at.Running? && c < n && s.procs[c].state.Unused? && s.plock[c] == NOBODY
    case ForkLock(i) => p.at.Forked? && s.waitLock == NOBODY
    case ForkParent(i) => p.at.ForkWaits? && p.at.c < n
    case ForkStart(i) => p.at.ForkParented? && p.at.c < n && s.tlock[p.at.c] == NOBODY
    case ExitStart(i, status) => p.at.Running? && i != INIT && s.waitLock == NOBODY
    case Reparent(i) => p.at.Reparenting? && p.at.k < n
    case ReparentEnd(i) => p.at == Reparenting(n)
    case MarkZombie(i) => p.at.Orphaned? && s.plock[i] == NOBODY
    case OwnLock(i) => p.at.Marked? && s.tlock[i] == NOBODY
    case DropWait(i) => p.at.Leaving?
    case Switch(i) => p.at.Switching?
    case WaitStart(i) => p.at.Running? && s.waitLock == NOBODY
    case WaitSkip(i) => p.at.Waiting? && p.at.k < n && s.procs[p.at.k].parent != i
    case WaitLock(i) => p.at.Waiting? && p.at.k < n && s.procs[p.at.k].parent == i && s.plock[p.at.k] == NOBODY
    case WaitNot(i) => p.at.Looking? && p.at.k < n && !s.procs[p.at.k].state.Zombie?
    case WaitFound(i) => p.at.Looking? && p.at.k < n && s.procs[p.at.k].state.Zombie?
    case WaitFail(i) => p.at.Looking? && p.at.k < n && s.procs[p.at.k].state.Zombie?
    case ReapLock(i) => p.at.Reaping? && p.at.k < n && s.tlock[p.at.k] == NOBODY
    case ReapThread(i) => p.at.Freeing? && p.at.k < n
    case ReapFree(i) => p.at.Freed? && p.at.k < n
    case WaitNone(i) => p.at.Waiting? && p.at.k == n && (!p.at.kids || s.killed[i])
    case WaitSleep(i) => p.at == Waiting(n, true) && !s.killed[i]
    case WaitWake(i) => p.at.Sleeping? && s.waitLock == NOBODY
    case SchedTake(i) => s.tlock[i] == NOBODY
    case SchedDrop(i) => s.tlock[i] == SCHEDULER
    case Kill(i) => s.plock[i] == NOBODY
  }

  function At(s: State, i: nat, at: Place): State
    requires i < |s.procs|
  {
    s.(procs := s.procs[i := s.procs[i].(at := at)])
  }

  function Next(s: State, step: Step): State
    requires Shape(s) && Enabled(s, step)
  {
    var i := step.i;
    var p := s.procs[i];
    match step
    case Alloc(i, c) =>
      At(s.(procs := s.procs[c := Proc(Used, s.nextpid, 0, NOBODY, true, Embryo(i), 0)], nextpid := s.nextpid + 1),
          i, Forked(c))
    case ForkLock(i) => At(s, i, ForkWaits(p.at.c)).(waitLock := i)
    case ForkParent(i) =>
      At(s.(procs := s.procs[p.at.c := s.procs[p.at.c].(parent := i)], waitLock := NOBODY), i, ForkParented(p.at.c))
    case ForkStart(i) => At(At(s, p.at.c, Running), i, Running)
    case ExitStart(i, status) => s.(procs := s.procs[i := p.(at := Reparenting(0), status := status)], waitLock := i)
    case Reparent(i) =>
      var k := p.at.k;
      At(s.(procs := if s.procs[k].parent == i then s.procs[k := s.procs[k].(parent := INIT)] else s.procs), i,
          Reparenting(k + 1))
    case ReparentEnd(i) => At(s, i, Orphaned)
    case MarkZombie(i) => s.(procs := s.procs[i := p.(state := Zombie, xstate := p.status, at := Marked)],
        exits := s.exits[p.pid := p.status])
    case OwnLock(i) => At(s, i, Leaving).(tlock := s.tlock[i := i])
    case DropWait(i) => At(s, i, Place.Switching).(waitLock := NOBODY)
    case Switch(i) => At(s, i, Gone).(tlock := s.tlock[i := NOBODY])
    case WaitStart(i) => At(s, i, Waiting(0, false)).(waitLock := i)
    case WaitSkip(i) => At(s, i, Waiting(p.at.k + 1, p.at.kids))
    case WaitLock(i) => At(s, i, Looking(p.at.k, p.at.kids)).(plock := s.plock[p.at.k := i])
    case WaitNot(i) => At(s, i, Waiting(p.at.k + 1, true)).(plock := s.plock[p.at.k := NOBODY])
    case WaitFound(i) => At(s, i, Reaping(p.at.k))
    case WaitFail(i) => At(s, i, Running).(plock := s.plock[p.at.k := NOBODY], waitLock := NOBODY)
    case ReapLock(i) => At(s, i, Freeing(p.at.k)).(tlock := s.tlock[p.at.k := i])
    case ReapThread(i) => At(s, i, Freed(p.at.k)).(tlock := s.tlock[p.at.k := NOBODY])
    case ReapFree(i) =>
      var k := p.at.k;
      At(s.(procs := s.procs[k := Proc(Unused, 0, 0, NOBODY, false, Idle, 0)],
          reaps := s.reaps + [Reaped(i, s.procs[k].pid, s.procs[k].xstate)],
            plock := s.plock[k := NOBODY], killed := s.killed[k := false], waitLock := NOBODY), i, Running)
    case WaitNone(i) => At(s, i, Running).(waitLock := NOBODY)
    case WaitSleep(i) => At(s, i, Sleeping).(waitLock := NOBODY)
    case WaitWake(i) => At(s, i, Waiting(0, false)).(waitLock := i)
    case SchedTake(i) => s.(tlock := s.tlock[i := SCHEDULER])
    case SchedDrop(i) => s.(tlock := s.tlock[i := NOBODY])
    case Kill(i) => s.(killed := s.killed[i := true])
  }

  // Invariant

  predicate HoldsWait(at: Place) {
    at.ForkWaits? || at.Reparenting? || at.Orphaned? || at.Marked? || at.Leaving? || HoldsChild(at) || at.Waiting?
  }

  /** In wait, holding the lock of slot `at.k`. */
  predicate HoldsChild(at: Place) {
    at.Looking? || at.Reaping? || at.Freeing? || at.Freed?
  }

  predicate HoldsOwn(at: Place) {
    at.Leaving? || at.Switching?
  }

  predicate Exited(at: Place) {
    at.Marked? || at.Leaving? || at.Switching? || at.Gone?
  }

  predicate MakesChild(at: Place) {
    at.Forked? || at.ForkWaits? || at.ForkParented?
  }

  /** What the fields of a slot say about where its process is. */
  ghost predicate SlotOk(s: State, i: nat)
    requires Shape(s) && i < |s.procs|
  {
    var p, n := s.procs[i], |s.procs|;
    && (p.state.Unused? <==> p.at.Idle?) && (p.state.Zombie? <==> Exited(p.at)) && (p.mem <==> !p.at.Idle?)
    && (Exited(p.at) ==> p.xstate == p.status)
    && (HoldsWait(p.at) <==> s.waitLock == i)
    && (HoldsOwn(p.at) <==> s.tlock[i] == i)
    && (p.at.Reparenting? ==> p.at.k <= n) && (p.at.Waiting? ==> p.at.k <= n)
    && (p.at.Embryo? || p.at.Reparenting? || p.at.Orphaned? || Exited(p.at) ==> i != INIT)
  }

  /** Locks of others, and what they are held for. */
  ghost predicate LocksOk(s: State, i: nat)
    requires Shape(s) && i < |s.procs|
  {
    var p, n := s.procs[i], |s.procs|;
    && (HoldsChild(p.at) ==>
         && p.at.k < n && p.at.k != i && s.plock[p.at.k] == i
         && s.procs[p.at.k].parent == i && !s.procs[p.at.k].state.Unused?)
    && (p.at.Reaping? || p.at.Freeing? || p.at.Freed? ==> s.procs[p.at.k].state.Zombie?)
    && (p.at.Freeing? ==> s.tlock[p.at.k] == i)
    && (p.at.Freeing? || p.at.Freed? ==> s.procs[p.at.k].at.Gone?)
    && (s.plock[i] != NOBODY ==>
         0 <= s.plock[i] < n && HoldsChild(s.procs[s.plock[i]].at) && s.procs[s.plock[i]].at.k == i)
    && (s.tlock[i] != NOBODY && s.tlock[i] != SCHEDULER && s.tlock[i] != i ==>
         0 <= s.tlock[i] < n && s.procs[s.tlock[i]].at == Freeing(i))
  }

  predicate CanBeParent(at: Place) {
    !at.Idle? && !at.Embryo? && !at.Orphaned? && !Exited(at)
  }

  /** A process on its way out has given away the children in the slots it has passed. */
  ghost predicate Abandons(s: State, i: nat, j: nat)
    requires Shape(s) && i < |s.procs| && j < |s.procs|
  {
    s.procs[j].parent == i ==> CanBeParent(s.procs[i].at) && (s.procs[i].at.Reparenting? ==> j >= s.procs[i].at.k)
  }

  /** Parents and embryos. */
  ghost predicate FamilyOk(s: State, i: nat)
    requires Shape(s) && i < |s.procs|
  {
    var p, n := s.procs[i], |s.procs|;
    && (p.parent == NOBODY || (0 <= p.parent < n && p.parent != i && Abandons(s, p.parent, i)))
    && (p.at.Embryo? ==> p.at.creator < n && MakesChild(s.procs[p.at.creator].at) && s.procs[p.at.creator].at.c == i)
    && (MakesChild(p.at) ==> p.at.c < n && p.at.c != i && s.procs[p.at.c].at == Embryo(i))
    && (p.at.ForkParented? ==> s.procs[p.at.c].parent == i)
    && (p.at.Forked? || p.at.ForkWaits? ==> s.procs[p.at.c].parent == NOBODY)
    && (p.parent == NOBODY ==> p.at.Idle? || p.at.Embryo? || i == INIT)
    && (p.at.Idle? || i == INIT ==> p.parent == NOBODY)
  }

  ghost predicate PidOk(s: State, i: nat)
    requires Shape(s) && i < |s.procs|
  {
    var p := s.procs[i];
    !p.state.Unused? ==>
      && p.pid < s.nextpid && (p.pid in s.exits <==> p.state.Zombie?)
      && (p.state.Zombie? ==> s.exits[p.pid] == p.xstate)
      && (forall r :: 0 <= r < |s.reaps| ==> s.reaps[r].pid != p.pid)
      && (forall j: nat :: j < |s.procs| && j != i && !s.procs[j].state.Unused? ==> s.procs[j].pid != p.pid)
  }

  ghost predicate ReapOk(s: State, r: nat)
    requires r < |s.reaps|
  {
    var e := s.reaps[r];
    && e.pid < s.nextpid && e.pid in s.exits && s.exits[e.pid] == e.status
    && forall q :: 0 <= q < r ==> s.reaps[q].pid != e.pid
  }

  ghost predicate Inv(s: State) {
    && Shape(s) && (s.waitLock == NOBODY || 0 <= s.waitLock < |s.procs|) && s.procs[INIT].state.Used?
    && (forall pid :: pid in s.exits ==> pid < s.nextpid)
    && (forall i: nat {:trigger SlotOk(s, i)} :: i < |s.procs| ==> SlotOk(s, i))
    && (forall i: nat {:trigger LocksOk(s, i)} :: i < |s.procs| ==> LocksOk(s, i))
    && (forall i: nat {:trigger FamilyOk(s, i)} :: i < |s.procs| ==> FamilyOk(s, i))
    && (forall i: nat {:trigger PidOk(s, i)} :: i < |s.procs| ==> PidOk(s, i))
    && (forall r: nat {:trigger ReapOk(s, r)} :: r < |s.reaps| ==> ReapOk(s, r))
  }

  // Groups of steps

  predicate InFork(step: Step) {
    step.ForkLock? || step.ForkParent? || step.ForkStart?
  }

  predicate InExit(step: Step) {
    step.ExitStart? || step.Reparent? || step.ReparentEnd?
  }

  predicate InLeave(step: Step) {
    step.MarkZombie? || step.OwnLock? || step.DropWait? || step.Switch?
  }

  predicate InWait(step: Step) {
    step.WaitStart? || step.WaitSkip? || step.WaitLock? || step.WaitNot? || step.WaitFound? || step.WaitFail?
  }

  predicate InRest(step: Step) {
    step.WaitNone? || step.WaitSleep? || step.WaitWake? || step.SchedTake? || step.SchedDrop? || step.Kill?
  }

  predicate InReap(step: Step) {
    step.ReapLock? || step.ReapThread? || step.ReapFree?
  }

  lemma {:induction false} ForkSlots(s: State, step: Step, j: nat)
    requires Shape(s) && Enabled(s, step) && j < |s.procs| && SlotOk(s, step.i) && SlotOk(s, j) && FamilyOk(s, step.i)
    requires InFork(step)
    ensures Shape(Next(s, step)) && SlotOk(Next(s, step), j)
  {
  }

  lemma {:induction false} ExitSlots(s: State, step: Step, j: nat)
    requires Shape(s) && Enabled(s, step) && j < |s.procs| && SlotOk(s, step.i) && SlotOk(s, j)
    requires InExit(step)
    ensures Shape(Next(s, step)) && SlotOk(Next(s, step), j)
  {
  }

  lemma {:induction false} LeaveSlots(s: State, step: Step, j: nat)
    requires Shape(s) && Enabled(s, step) && j < |s.procs| && SlotOk(s, step.i) && SlotOk(s, j)
    requires InLeave(step)
    ensures Shape(Next(s, step)) && SlotOk(Next(s, step), j)
  {
  }

  lemma {:induction false} WaitSlots(s: State, step: Step, j: nat)
    requires Shape(s) && Enabled(s, step) && j < |s.procs| && SlotOk(s, step.i) && SlotOk(s, j)
    requires InWait(step)
    ensures Shape(Next(s, step)) && SlotOk(Next(s, step), j)
  {
  }

  lemma {:induction false} RestSlots(s: State, step: Step, j: nat)
    requires Shape(s) && Enabled(s, step) && j < |s.procs| && SlotOk(s, step.i) && SlotOk(s, j)
    requires step.WaitNone? || step.WaitSleep? || step.WaitWake?
    ensures Shape(Next(s, step)) && SlotOk(Next(s, step), j)
  {
  }

  lemma {:induction false} SchedSlots(s: State, step: Step, j: nat)
    requires Shape(s) && Enabled(s, step) && j < |s.procs| && SlotOk(s, step.i) && SlotOk(s, j)
    requires step.SchedTake? || step.SchedDrop? || step.Kill?
    ensures Shape(Next(s, step)) && SlotOk(Next(s, step), j)
  {
  }

  lemma {:induction false} ReapSlots(s: State, step: Step, j: nat)
    requires Shape(s) && Enabled(s, step) && j < |s.procs| && SlotOk(s, step.i) && SlotOk(s, j) && LocksOk(s, step.i)
    requires InReap(step)
    ensures Shape(Next(s, step)) && SlotOk(Next(s, step), j)
  {
  }

  lemma {:induction false} ForkLocks(s: State, step: Step, j: nat)
    requires Shape(s) && Enabled(s, step) && j < |s.procs| && (step.ForkParent? || step.ForkStart?)
    requires SlotOk(s, step.i) && FamilyOk(s, step.i) && LocksOk(s, j)
    ensures Shape(Next(s, step)) && LocksOk(Next(s, step), j)
  {
  }

  lemma {:induction false} ReparentLocks(s: State, step: Step, j: nat)
    requires Shape(s) && Enabled(s, step) && j < |s.procs| && step.Reparent?
    requires SlotOk(s, step.i) && LocksOk(s, j)
    ensures Shape(Next(s, step)) && LocksOk(Next(s, step), j)
  {
  }

  lemma {:induction false} WaitLocks(s: State, step: Step, j: nat)
    requires Shape(s) && Enabled(s, step) && j < |s.procs| && step.WaitLock?
    requires SlotOk(s, s.procs[step.i].at.k) && FamilyOk(s, s.procs[step.i].at.k) && LocksOk(s, j)
    ensures Shape(Next(s, step)) && LocksOk(Next(s, step), j)
  {
  }

  lemma {:induction false} DropLocks(s: State, step: Step, j: nat)
    requires Shape(s) && Enabled(s, step) && j < |s.procs| && step.WaitNot?
    requires LocksOk(s, step.i) && LocksOk(s, j)
    ensures Shape(Next(s, step)) && LocksOk(Next(s, step), j)
  {
  }

  lemma {:induction false} FailLocks(s: State, step: Step, j: nat)
    requires Shape(s) && Enabled(s, step) && j < |s.procs| && step.WaitFail?
    requires LocksOk(s, step.i) && LocksOk(s, j)
    ensures Shape(Next(s, step)) && LocksOk(Next(s, step), j)
  {
  }

  lemma {:induction false} FoundLocks(s: State, step: Step, j: nat)
    requires Shape(s) && Enabled(s, step) && j < |s.procs| && step.WaitFound?
    requires LocksOk(s, step.i) && LocksOk(s, j)
    ensures Shape(Next(s, step)) && LocksOk(Next(s, step), j)
  {
  }

  lemma {:induction false} ReapLocks(s: State, step: Step, j: nat)
    requires Shape(s) && Enabled(s, step) && j < |s.procs| && step.ReapLock?
    requires SlotOk(s, step.i) && LocksOk(s, step.i) && LocksOk(s, j) && SlotOk(s, s.procs[step.i].at.k)
    ensures Shape(Next(s, step)) && LocksOk(Next(s, step), j)
  {
  }

  lemma {:induction false} ThreadLocks(s: State, step: Step, j: nat)
    requires Shape(s) && Enabled(s, step) && j < |s.procs| && step.ReapThread?
    requires LocksOk(s, step.i) && LocksOk(s, j)
    ensures Shape(Next(s, step)) && LocksOk(Next(s, step), j)
  {
  }

  lemma {:induction false} SchedLocks(s: State, step: Step, j: nat)
    requires Shape(s) && Enabled(s, step) && j < |s.procs| && LocksOk(s, j)
    requires (step.SchedTake? || step.SchedDrop? || step.Kill?)
    ensures Shape(Next(s, step)) && LocksOk(Next(s, step), j)
  {
  }

  lemma {:induction false} ReapFreeLocks(s: State, step: Step, j: nat)
    requires Shape(s) && Enabled(s, step) && j < |s.procs| && SlotOk(s, step.i) && LocksOk(s, step.i) && LocksOk(s, j)
    requires step.ReapFree? && SlotOk(s, s.procs[step.i].at.k)
    ensures Shape(Next(s, step)) && LocksOk(Next(s, step), j)
  {
  }

  lemma {:induction false} AllocSlots(s: State, step: Step, j: nat)
    requires Shape(s) && Enabled(s, step) && j < |s.procs| && step.Alloc? && s.procs[INIT].state.Used?
    requires SlotOk(s, step.i) && SlotOk(s, j) && SlotOk(s, step.c)
    ensures Shape(Next(s, step)) && SlotOk(Next(s, step), j)
  {
  }

  lemma {:induction false} AllocLocks(s: State, step: Step, j: nat)
    requires Shape(s) && Enabled(s, step) && j < |s.procs| && step.Alloc?
    requires LocksOk(s, j) && SlotOk(s, step.c)
    ensures Shape(Next(s, step)) && LocksOk(Next(s, step), j)
  {
  }

  // Families

  /** Moves that leave alone who is whose parent and who makes whom. */
  ghost predicate MildMove(s: State, i: nat, at: Place)
    requires Shape(s) && i < |s.procs|
  {
    var was, n := s.procs[i].at, |s.procs|;
    && (CanBeParent(was) ==> CanBeParent(at) || was == Reparenting(n))
    && (at.Reparenting? ==> at.k == 0)
    && (MakesChild(was) || MakesChild(at) ==> was.Forked? && at == ForkWaits(was.c))
    && !was.Embryo? && !at.Embryo? && !was.Idle? && !at.Idle?
  }

  /** Same processes as in `s`, but for the place and the exit status of process `i`. */
  ghost predicate Moved(s: State, t: State, i: nat, at: Place)
    requires Shape(s) && Shape(t) && i < |s.procs|
  {
    && |t.procs| == |s.procs| && t.procs[i].at == at && t.procs[i].parent == s.procs[i].parent
    && forall j: nat {:trigger t.procs[j]} :: j < |s.procs| && j != i ==> t.procs[j] == s.procs[j]
  }

  lemma {:induction false} MoveFamily(s: State, t: State, i: nat, at: Place, j: nat)
    requires Shape(s) && Shape(t) && i < |s.procs| && j < |s.procs| && Moved(s, t, i, at) && MildMove(s, i, at)
    requires FamilyOk(s, i) && FamilyOk(s, j) && forall k: nat :: k < |s.procs| ==> FamilyOk(s, k)
    ensures FamilyOk(t, j)
  {
    if s.procs[j].parent == i {
      assert Abandons(s, i, j);
    }
  }

  predicate Special(step: Step) {
    || step.Alloc? || step.ForkParent? || step.ForkStart? || step.Reparent? || step.ReapFree?
    || step.SchedTake? || step.SchedDrop? || step.Kill?
  }

  lemma {:induction false} MildExits(s: State, step: Step)
    requires Shape(s) && Enabled(s, step) && SlotOk(s, step.i) && !Special(step)
    requires (InFork(step) || InExit(step) || InLeave(step))
    ensures Shape(Next(s, step)) && Moved(s, Next(s, step), step.i, Next(s, step).procs[step.i].at)
    ensures MildMove(s, step.i, Next(s, step).procs[step.i].at)
  {
  }

  lemma {:induction false} MildWaits(s: State, step: Step)
    requires Shape(s) && Enabled(s, step) && SlotOk(s, step.i) && InWait(step)
    ensures Shape(Next(s, step)) && Moved(s, Next(s, step), step.i, Next(s, step).procs[step.i].at)
    ensures MildMove(s, step.i, Next(s, step).procs[step.i].at)
  {
  }

  lemma {:induction false} MildRests(s: State, step: Step)
    requires Shape(s) && Enabled(s, step) && !Special(step) && InRest(step)
    ensures Shape(Next(s, step)) && Moved(s, Next(s, step), step.i, Next(s, step).procs[step.i].at)
    ensures MildMove(s, step.i, Next(s, step).procs[step.i].at)
  {
  }

  lemma {:induction false} MildReaps(s: State, step: Step)
    requires Shape(s) && Enabled(s, step) && !Special(step) && InReap(step)
    ensures Shape(Next(s, step)) && Moved(s, Next(s, step), step.i, Next(s, step).procs[step.i].at)
    ensures MildMove(s, step.i, Next(s, step).procs[step.i].at)
  {
  }

  lemma {:induction false} MildSteps(s: State, step: Step)
    requires Shape(s) && Enabled(s, step) && SlotOk(s, step.i) && !Special(step)
    ensures Shape(Next(s, step)) && Moved(s, Next(s, step), step.i, Next(s, step).procs[step.i].at)
    ensures MildMove(s, step.i, Next(s, step).procs[step.i].at)
  {
    if InFork(step) || InExit(step) || InLeave(step) {
      MildExits(s, step);
    } else if InWait(step) {
      MildWaits(s, step);
    } else if InRest(step) {
      MildRests(s, step);
    } else {
      MildReaps(s, step);
    }
  }

  /** Process `i` moves without touching the lock of a child, or another's t_lock. */
  ghost predicate Quiet(s: State, t: State, i: nat, at: Place)
    requires Shape(s) && Shape(t) && i < |s.procs| == |t.procs|
  {
    && !HoldsChild(s.procs[i].at) && !HoldsChild(at) && t.plock == s.plock && t.tlock == s.tlock[i := t.tlock[i]]
    && (t.tlock[i] == s.tlock[i] || (s.tlock[i] in {i, NOBODY} && t.tlock[i] in {i, NOBODY}))
    && (s.procs[i].at.Gone? ==> at.Gone?) && (s.procs[i].state.Zombie? ==> t.procs[i].state.Zombie?)
    && (t.procs[i].state.Unused? ==> s.procs[i].state.Unused?)
  }

  lemma {:induction false} QuietLocks(s: State, t: State, i: nat, at: Place, j: nat)
    requires Shape(s) && Shape(t) && i < |s.procs| && j < |s.procs| && Moved(s, t, i, at) && Quiet(s, t, i, at)
    requires LocksOk(s, j)
    ensures LocksOk(t, j)
  {
  }

  predicate Silent(step: Step) {
    step.ForkLock? || step.ExitStart? || step.ReparentEnd? || InLeave(step) || Asks(step)
  }

  predicate Asks(step: Step) {
    step.WaitStart? || step.WaitSkip? || step.WaitNone? || step.WaitSleep? || step.WaitWake?
  }

  lemma {:induction false} QuietExits(s: State, step: Step)
    requires Shape(s) && Enabled(s, step) && Silent(step) && !Asks(step) && SlotOk(s, step.i)
    ensures var t := Next(s, step); Shape(t) && |t.procs| == |s.procs| && Quiet(s, t, step.i, t.procs[step.i].at)
  {
  }

  lemma {:induction false} QuietWaits(s: State, step: Step)
    requires Shape(s) && Enabled(s, step) && Asks(step)
    ensures var t := Next(s, step); Shape(t) && |t.procs| == |s.procs| && Quiet(s, t, step.i, t.procs[step.i].at)
  {
  }

  lemma {:induction false} SilentLocks(s: State, step: Step, j: nat)
    requires Shape(s) && Enabled(s, step) && j < |s.procs| && SlotOk(s, step.i) && LocksOk(s, j) && Silent(step)
    ensures Shape(Next(s, step)) && LocksOk(Next(s, step), j)
  {
    if Asks(step) {
      QuietWaits(s, step);
    } else {
      QuietExits(s, step);
    }
    MildSteps(s, step);
    QuietLocks(s, Next(s, step), step.i, Next(s, step).procs[step.i].at, j);
  }

  lemma {:induction false} AllFamilies(s: State)
    requires Inv(s)
    ensures forall k: nat :: k < |s.procs| ==> FamilyOk(s, k)
  {
    forall k: nat | k < |s.procs| ensures FamilyOk(s, k) {
    }
  }

  lemma {:induction false} AllocFamily(s: State, step: Step, j: nat)
    requires Shape(s) && Enabled(s, step) && j < |s.procs| && step.Alloc?
    requires SlotOk(s, step.c) && SlotOk(s, step.i) && FamilyOk(s, step.c) && FamilyOk(s, step.i) && FamilyOk(s, j)
    ensures Shape(Next(s, step)) && FamilyOk(Next(s, step), j)
  {
  }

  lemma {:induction false} ForkParentFamily(s: State, step: Step, j: nat)
    requires Shape(s) && Enabled(s, step) && j < |s.procs| && step.ForkParent?
    requires var c := s.procs[step.i].at.c; FamilyOk(s, step.i) && FamilyOk(s, c) && FamilyOk(s, j) && SlotOk(s, c)
    ensures Shape(Next(s, step)) && FamilyOk(Next(s, step), j)
  {
  }

  lemma {:induction false} ForkStartFamily(s: State, step: Step, j: nat)
    requires Shape(s) && Enabled(s, step) && j < |s.procs| && step.ForkStart?
    requires FamilyOk(s, step.i) && FamilyOk(s, s.procs[step.i].at.c) && FamilyOk(s, j)
    ensures Shape(Next(s, step)) && FamilyOk(Next(s, step), j)
  {
  }

  lemma {:induction false} ReparentFamily(s: State, step: Step, j: nat)
    requires Shape(s) && Enabled(s, step) && j < |s.procs| && step.Reparent?
    requires s.procs[s.procs[step.i].at.k].parent == step.i
    requires var k := s.procs[step.i].at.k;
      && SlotOk(s, step.i)
      && SlotOk(s, INIT)
      && FamilyOk(s, k)
      && FamilyOk(s, j)
      && s.procs[INIT].state.Used?
    ensures Shape(Next(s, step)) && FamilyOk(Next(s, step), j)
  {
  }

  lemma {:induction false} PassFamily(s: State, step: Step, j: nat)
    requires Shape(s) && Enabled(s, step) && j < |s.procs| && step.Reparent?
    requires s.procs[s.procs[step.i].at.k].parent != step.i
    requires var k := s.procs[step.i].at.k;
      && SlotOk(s, step.i)
      && SlotOk(s, INIT)
      && FamilyOk(s, k)
      && FamilyOk(s, j)
      && s.procs[INIT].state.Used?
    ensures Shape(Next(s, step)) && FamilyOk(Next(s, step), j)
  {
  }

  lemma {:induction false} ReapFamily(s: State, step: Step, j: nat)
    requires Shape(s) && Enabled(s, step) && j < |s.procs| && step.ReapFree?
    requires LocksOk(s, step.i) && SlotOk(s, s.procs[step.i].at.k) && FamilyOk(s, s.procs[step.i].at.k)
    requires FamilyOk(s, j)
    ensures Shape(Next(s, step)) && FamilyOk(Next(s, step), j)
  {
  }

  /** The process that a special step changes, or passes, beside its own. */
  function Other(s: State, step: Step): nat
    requires Shape(s) && Enabled(s, step)
  {
    var at := s.procs[step.i].at;
    if step.Alloc? then step.c else if step.ForkParent? || step.ForkStart? then at.c
    else if step.Reparent? || step.ReapFree? then at.k else step.i
  }

  lemma {:induction false} FamiliesKept(s: State, step: Step, j: nat)
    requires Inv(s) && Enabled(s, step) && j < |s.procs|
    ensures Shape(Next(s, step)) && FamilyOk(Next(s, step), j)
  {
    if !Special(step) {
      AllFamilies(s);
      assert SlotOk(s, step.i);
      MildSteps(s, step);
      MoveFamily(s, Next(s, step), step.i, Next(s, step).procs[step.i].at, j);
    } else {
      SpecialFamilies(s, step, j);
    }
  }

  lemma {:induction false} SpecialFamilies(s: State, step: Step, j: nat)
    requires Inv(s) && Enabled(s, step) && j < |s.procs| && Special(step)
    ensures Shape(Next(s, step)) && FamilyOk(Next(s, step), j)
  {
    assert SlotOk(s, step.i) && LocksOk(s, step.i) && FamilyOk(s, step.i) && SlotOk(s, INIT) && FamilyOk(s, j);
    var k := Other(s, step);
    assert k < |s.procs| ==> SlotOk(s, k) && FamilyOk(s, k);
    if step.Alloc? {
      AllocFamily(s, step, j);
    } else if step.ForkParent? {
      ForkParentFamily(s, step, j);
    } else if step.ForkStart? {
      ForkStartFamily(s, step, j);
    } else if step.Reparent? {
      if s.procs[k].parent == step.i {
        ReparentFamily(s, step, j);
      } else {
        PassFamily(s, step, j);
      }
    } else if step.ReapFree? {
      ReapFamily(s, step, j);
    } else {
      assert FamilyOk(s, j);
    }
  }

  // Process numbers and statuses

  ghost predicate SamePerson(p: Proc, q: Proc) {
    p.state == q.state && p.pid == q.pid && p.xstate == q.xstate
  }

  ghost predicate SamePeople(s: State, t: State) {
    && |t.procs| == |s.procs| && t.exits == s.exits && t.reaps == s.reaps && t.nextpid == s.nextpid
    && forall k: nat {:trigger t.procs[k]} :: k < |s.procs| ==> SamePerson(s.procs[k], t.procs[k])
  }

  lemma {:induction false} MovedPeople(s: State, t: State, i: nat, at: Place)
    requires Shape(s) && Shape(t) && i < |s.procs| && Moved(s, t, i, at) && SamePerson(s.procs[i], t.procs[i])
    requires t.exits == s.exits && t.reaps == s.reaps && t.nextpid == s.nextpid
    ensures SamePeople(s, t)
  {
    forall k: nat | k < |s.procs| ensures SamePerson(s.procs[k], t.procs[k]) {
    }
  }

  lemma {:induction false} SamePid(s: State, step: Step)
    requires Shape(s) && Enabled(s, step) && !Special(step) && !step.MarkZombie?
    ensures var t := Next(s, step);
      && SamePerson(s.procs[step.i], t.procs[step.i])
      && t.exits == s.exits
      && t.reaps == s.reaps
      && t.nextpid == s.nextpid
  {
  }

  lemma {:induction false} SpecialPeople(s: State, step: Step)
    requires Shape(s) && Enabled(s, step) && Special(step) && !step.Alloc? && !step.ReapFree?
    ensures Shape(Next(s, step)) && SamePeople(s, Next(s, step))
  {
    var t := Next(s, step);
    forall k: nat | k < |s.procs| ensures SamePerson(s.procs[k], t.procs[k]) {
    }
  }

  lemma {:induction false} PeopleKept(s: State, step: Step)
    requires Inv(s) && Enabled(s, step) && !step.Alloc? && !step.MarkZombie? && !step.ReapFree?
    ensures Shape(Next(s, step)) && SamePeople(s, Next(s, step))
  {
    if Special(step) {
      SpecialPeople(s, step);
    } else {
      assert SlotOk(s, step.i);
      MildSteps(s, step);
      SamePid(s, step);
      MovedPeople(s, Next(s, step), step.i, Next(s, step).procs[step.i].at);
    }
  }

  lemma {:induction false} PidsKept(s: State, t: State, j: nat)
    requires Shape(s) && Shape(t) && SamePeople(s, t) && j < |s.procs| && PidOk(s, j)
    ensures PidOk(t, j)
  {
    assert SamePerson(s.procs[j], t.procs[j]);
  }

  lemma {:induction false} PidsChanged(s: State, step: Step, j: nat)
    requires Inv(s) && Enabled(s, step) && j < |s.procs| && (step.Alloc? || step.MarkZombie? || step.ReapFree?)
    ensures Shape(Next(s, step)) && PidOk(Next(s, step), j)
  {
    assert PidOk(s, j) && PidOk(s, step.i) && SlotOk(s, step.i) && SlotOk(s, j) && LocksOk(s, step.i);
    if step.ReapFree? {
      assert PidOk(s, s.procs[step.i].at.k);
    } else if step.Alloc? {
      forall r: nat | r < |s.reaps| ensures s.reaps[r].pid != s.nextpid {
        assert ReapOk(s, r);
      }
      forall k: nat | k < |s.procs| && !s.procs[k].state.Unused? ensures s.procs[k].pid != s.nextpid {
        assert PidOk(s, k);
      }
    }
  }

  lemma {:induction false} ReapsKept(s: State, step: Step, r: nat)
    requires Inv(s) && Enabled(s, step) && r < |Next(s, step).reaps|
    ensures ReapOk(Next(s, step), r)
  {
    if r < |s.reaps| {
      assert ReapOk(s, r);
    }
    if step.ReapFree? {
      var k := s.procs[step.i].at.k;
      assert LocksOk(s, step.i) && PidOk(s, k);
    } else if step.MarkZombie? {
      assert PidOk(s, step.i) && SlotOk(s, step.i);
    }
  }

  // Every run

  lemma {:induction false} SlotsKept(s: State, step: Step, j: nat)
    requires Inv(s) && Enabled(s, step) && j < |s.procs| && !step.Alloc?
    ensures Shape(Next(s, step)) && SlotOk(Next(s, step), j)
  {
    assert SlotOk(s, step.i) && LocksOk(s, step.i) && FamilyOk(s, step.i) && SlotOk(s, j);
    if InFork(step) {
      ForkSlots(s, step, j);
    } else if InExit(step) {
      ExitSlots(s, step, j);
    } else if InLeave(step) {
      LeaveSlots(s, step, j);
    } else if InWait(step) {
      WaitSlots(s, step, j);
    } else if step.SchedTake? || step.SchedDrop? || step.Kill? {
      SchedSlots(s, step, j);
    } else if InRest(step) {
      RestSlots(s, step, j);
    } else {
      ReapSlots(s, step, j);
    }
  }

  lemma {:induction false} LocksKept(s: State, step: Step, j: nat)
    requires Inv(s) && Enabled(s, step) && j < |s.procs| && !step.Alloc?
    ensures Shape(Next(s, step)) && LocksOk(Next(s, step), j)
  {
    assert SlotOk(s, step.i) && LocksOk(s, step.i) && FamilyOk(s, step.i) && LocksOk(s, j);
    var at := s.procs[step.i].at;
    if Silent(step) {
      SilentLocks(s, step, j);
    } else if InFork(step) {
      ForkLocks(s, step, j);
    } else if step.Reparent? {
      ReparentLocks(s, step, j);
    } else if step.WaitLock? {
      assert SlotOk(s, at.k) && FamilyOk(s, at.k);
      WaitLocks(s, step, j);
    } else if step.WaitNot? {
      DropLocks(s, step, j);
    } else if step.WaitFail? {
      FailLocks(s, step, j);
    } else if step.WaitFound? {
      FoundLocks(s, step, j);
    } else if step.SchedTake? || step.SchedDrop? || step.Kill? {
      SchedLocks(s, step, j);
    } else {
      assert SlotOk(s, at.k);
      if step.ReapFree? {
        ReapFreeLocks(s, step, j);
      } else if step.ReapThread? {
        ThreadLocks(s, step, j);
      } else {
        ReapLocks(s, step, j);
      }
    }
  }

  lemma {:induction false} AllKept(s: State, step: Step, j: nat)
    requires Inv(s) && Enabled(s, step) && j < |s.procs|
    ensures Shape(Next(s, step)) && SlotOk(Next(s, step), j) && LocksOk(Next(s, step), j)
    ensures FamilyOk(Next(s, step), j) && PidOk(Next(s, step), j)
  {
    if step.Alloc? {
      assert SlotOk(s, step.i) && SlotOk(s, j) && LocksOk(s, j) && SlotOk(s, step.c);
      AllocSlots(s, step, j);
      AllocLocks(s, step, j);
    } else {
      SlotsKept(s, step, j);
      LocksKept(s, step, j);
    }
    FamiliesKept(s, step, j);
    if step.Alloc? || step.MarkZombie? || step.ReapFree? {
      PidsChanged(s, step, j);
    } else {
      PeopleKept(s, step);
      assert PidOk(s, j);
      PidsKept(s, Next(s, step), j);
    }
  }

  lemma {:induction false} ShapeKept(s: State, step: Step)
    requires Shape(s) && (s.waitLock == NOBODY || 0 <= s.waitLock < |s.procs|) && Enabled(s, step)
    ensures var t := Next(s, step);
      && |t.procs| == |s.procs|
      && Shape(t)
      && (t.waitLock == NOBODY || 0 <= t.waitLock < |t.procs|)
  {
  }

  lemma {:induction false} InitKept(s: State, step: Step)
    requires Shape(s) && Enabled(s, step) && s.procs[INIT].state.Used? && SlotOk(s, step.i) && LocksOk(s, step.i)
    ensures |Next(s, step).procs| == |s.procs| && Next(s, step).procs[INIT].state.Used?
  {
  }

  lemma {:induction false} ExitsKept(s: State, step: Step)
    requires Shape(s) && Enabled(s, step) && SlotOk(s, step.i) && PidOk(s, step.i)
    requires forall pid :: pid in s.exits ==> pid < s.nextpid
    ensures var t := Next(s, step); forall pid :: pid in t.exits ==> pid < t.nextpid
  {
  }

  lemma {:induction false} NextInv(s: State, step: Step)
    requires Inv(s) && Enabled(s, step)
    ensures Inv(Next(s, step))
  {
    assert SlotOk(s, step.i) && LocksOk(s, step.i) && PidOk(s, step.i);
    ShapeKept(s, step);
    InitKept(s, step);
    ExitsKept(s, step);
    var t := Next(s, step);
    forall j: nat | j < |t.procs| ensures SlotOk(t, j) && LocksOk(t, j) && FamilyOk(t, j) && PidOk(t, j) {
      AllKept(s, step, j);
    }
    forall r: nat | r < |t.reaps| ensures ReapOk(t, r) {
      ReapsKept(s, step, r);
    }
  }

  /** Only init, running. */
  ghost predicate Init(s: State) {
    && Shape(s) && s.waitLock == NOBODY && s.nextpid == 2 && s.exits == map[] && s.reaps == []
    && (forall i: nat :: i < |s.procs| ==> s.plock[i] == NOBODY && s.tlock[i] == NOBODY)
    && s.procs[INIT] == Proc(Used, 1, 0, NOBODY, true, Running, 0)
    && (forall i: nat :: i < |s.procs| && i != INIT ==> s.procs[i] == Proc(Unused, 0, 0, NOBODY, false, Idle, 0))
  }

  lemma {:induction false} InitInv(s: State)
    requires Init(s)
    ensures Inv(s)
  {
    forall i: nat | i < |s.procs| ensures SlotOk(s, i) && LocksOk(s, i) && FamilyOk(s, i) && PidOk(s, i) {
    }
  }

  ghost predicate StepAt(steps: seq<Step>, states: seq<State>, n: nat)
    requires n < |steps| && |states| == |steps| + 1
  {
    Shape(states[n]) && Enabled(states[n], steps[n]) && states[n + 1] == Next(states[n], steps[n])
  }

  ghost predicate Run(steps: seq<Step>, states: seq<State>) {
    && |states| == |steps| + 1 && Init(states[0])
    && forall n: nat {:trigger StepAt(steps, states, n)} :: n < |steps| ==> StepAt(steps, states, n)
  }

  lemma {:induction false} RunInv(steps: seq<Step>, states: seq<State>, n: nat)
    requires Run(steps, states) && n < |states|
    ensures Inv(states[n])
  {
    if n == 0 {
      InitInv(states[0]);
    } else {
      RunInv(steps, states, n - 1);
      assert StepAt(steps, states, n - 1);
      NextInv(states[n - 1], steps[n - 1]);
    }
  }

  // What holds in every run

  /** What wait returns is what the process passed to exit. */
  lemma {:induction false} ReapedStatus(steps: seq<Step>, states: seq<State>, n: nat, r: nat)
    requires Run(steps, states) && n < |states| && r < |states[n].reaps|
    ensures states[n].reaps[r].pid in states[n].exits
    ensures states[n].exits[states[n].reaps[r].pid] == states[n].reaps[r].status
  {
    RunInv(steps, states, n);
    assert ReapOk(states[n], r);
  }

  /** No process is reaped twice. */
  lemma {:induction false} ReapedOnce(steps: seq<Step>, states: seq<State>, n: nat, q: nat, r: nat)
    requires Run(steps, states) && n < |states| && q < |states[n].reaps| && r < |states[n].reaps|
    ensures states[n].reaps[q].pid == states[n].reaps[r].pid ==> q == r
  {
    RunInv(steps, states, n);
    assert ReapOk(states[n], q) && ReapOk(states[n], r);
  }

  /** A process is reaped by its parent, after it has switched away and the scheduler has
      dropped its t_lock; only then are its page table and trapframe page released. */
  lemma {:induction false} ReapedByParent(steps: seq<Step>, states: seq<State>, n: nat)
    requires Run(steps, states) && n < |steps| && steps[n].ReapFree?
    ensures var s, t, i := states[n], states[n + 1], steps[n].i;
      i < |s.procs| == |t.procs| && s.procs[i].at.Freed? && s.procs[i].at.k < |s.procs| &&
      var k := s.procs[i].at.k;
      s.procs[k].parent == i && s.procs[k].state.Zombie? && s.procs[k].at.Gone? && s.procs[k].mem && !t.procs[k].mem &&
      t.reaps == s.reaps + [Reaped(i, s.procs[k].pid, s.procs[k].status)]
  {
    RunInv(steps, states, n);
    assert StepAt(steps, states, n);
    var s, i := states[n], steps[n].i;
    assert LocksOk(s, i) && SlotOk(s, s.procs[i].at.k);
  }

  // When wait gives up

  ghost predicate ChildIn(s: State, i: nat, j: nat) {
    j < |s.procs| && s.procs[j].parent == i
  }

  /** Process `i` has a child in one of the first `n` slots. */
  ghost predicate HasChild(s: State, i: nat, n: nat) {
    exists j: nat :: j < n && ChildIn(s, i, j)
  }

  /** wait knows whether the slots it has passed hold a child. */
  ghost predicate KidsOk(s: State, i: nat)
    requires i < |s.procs|
  {
    var at := s.procs[i].at;
    && (at.Waiting? ==> (at.kids <==> HasChild(s, i, at.k)))
    && (at.Looking? ==> (at.kids <==> HasChild(s, i, at.k)) && ChildIn(s, i, at.k))
  }

  lemma {:induction false} OneFurther(s: State, i: nat, k: nat)
    ensures HasChild(s, i, k + 1) <==> HasChild(s, i, k) || ChildIn(s, i, k)
  {
  }

  /** Without a change of parents, the process in wait itself takes the step. */
  lemma {:induction false} WaiterKids(s: State, step: Step)
    requires Shape(s) && Enabled(s, step) && KidsOk(s, step.i) && (InWait(step) || InRest(step))
    ensures Shape(Next(s, step)) && |Next(s, step).procs| == |s.procs| && KidsOk(Next(s, step), step.i)
  {
    var t, i := Next(s, step), step.i;
    forall j: nat ensures ChildIn(t, i, j) <==> ChildIn(s, i, j) {
    }
    if s.procs[i].at.Waiting? || s.procs[i].at.Looking? {
      OneFurther(s, i, s.procs[i].at.k);
    }
  }

  /** Someone else's step changes the parent of nobody while process `j` is in wait: it would have to hold
      wait_lock for that. */
  lemma {:induction false} OtherKids(s: State, step: Step, j: nat)
    requires Inv(s) && Enabled(s, step) && j < |s.procs| && j != step.i && KidsOk(s, j)
    ensures Shape(Next(s, step)) && |Next(s, step).procs| == |s.procs| && KidsOk(Next(s, step), j)
  {
    var t := Next(s, step);
    ShapeKept(s, step);
    assert SlotOk(s, step.i) && SlotOk(s, j) && FamilyOk(s, step.i);
    if t.procs[j].at.Waiting? || t.procs[j].at.Looking? {
      assert t.procs[j].at == s.procs[j].at;
      forall k: nat ensures ChildIn(t, j, k) <==> ChildIn(s, j, k) {
        if step.Alloc? {
          assert SlotOk(s, step.c) && FamilyOk(s, step.c);
        }
      }
    }
  }

  lemma {:induction false} KidsKept(s: State, step: Step, j: nat)
    requires Inv(s) && Enabled(s, step) && j < |s.procs| && KidsOk(s, j)
    ensures Shape(Next(s, step)) && |Next(s, step).procs| == |s.procs| && KidsOk(Next(s, step), j)
  {
    ShapeKept(s, step);
    if j != step.i {
      OtherKids(s, step, j);
    } else if InWait(step) || InRest(step) {
      WaiterKids(s, step);
    } else {
      assert SlotOk(s, j) && LocksOk(s, j);
    }
  }

  lemma {:induction false} RunKids(steps: seq<Step>, states: seq<State>, n: nat, i: nat)
    requires Run(steps, states) && n < |states| && i < |states[n].procs|
    ensures KidsOk(states[n], i)
  {
    if n > 0 {
      RunInv(steps, states, n - 1);
      assert StepAt(steps, states, n - 1);
      ShapeKept(states[n - 1], steps[n - 1]);
      RunKids(steps, states, n - 1, i);
      KidsKept(states[n - 1], steps[n - 1], i);
    }
  }

  /** At the end of its scan wait returns -1 exactly if the process has no child or has been killed, and
      otherwise sleeps. */
  lemma {:induction false} GivesUp(steps: seq<Step>, states: seq<State>, n: nat, i: nat)
    requires Run(steps, states) && n < |states| && i < |states[n].procs|
    requires states[n].procs[i].at.Waiting? && states[n].procs[i].at.k == |states[n].procs|
    ensures Shape(states[n])
    ensures var s := states[n];
      && (Enabled(s, WaitNone(i)) <==> s.killed[i] || forall j: nat :: j < |s.procs| ==> s.procs[j].parent != i)
      && (Enabled(s, WaitSleep(i)) <==> !Enabled(s, WaitNone(i)))
  {
    RunInv(steps, states, n);
    RunKids(steps, states, n, i);
    var s := states[n];
    if forall j: nat :: j < |s.procs| ==> s.procs[j].parent != i {
      assert !HasChild(s, i, |s.procs|);
    } else {
      var j: nat :| j < |s.procs| && s.procs[j].parent == i;
      assert ChildIn(s, i, j);
    }
  }

  // Whose memory is released

  /** Slot `k` belongs to process `pid`, which has its memory. */
  ghost predicate Holds(s: State, k: nat, pid: nat) {
    k < |s.procs| && !s.procs[k].state.Unused? && s.procs[k].pid == pid && s.procs[k].mem
  }

  ghost predicate HasReaped(s: State, pid: nat) {
    exists r: nat :: r < |s.reaps| && s.reaps[r].pid == pid
  }

  lemma {:induction false} ReapedStays(s: State, step: Step, pid: nat)
    requires Shape(s) && Enabled(s, step) && HasReaped(s, pid)
    ensures HasReaped(Next(s, step), pid)
  {
    var r: nat :| r < |s.reaps| && s.reaps[r].pid == pid;
    assert Next(s, step).reaps[r] == s.reaps[r];
  }

  lemma {:induction false} HeldUnlessReaping(s: State, step: Step, k: nat)
    requires Inv(s) && Enabled(s, step) && Inv(Next(s, step)) && !step.ReapFree?
    requires k < |s.procs| && !s.procs[k].state.Unused?
    ensures Holds(Next(s, step), k, s.procs[k].pid)
    ensures s.procs[k].state.Zombie? ==> Next(s, step).procs[k].state.Zombie?
  {
    ShapeKept(s, step);
    assert SlotOk(s, step.i) && SlotOk(Next(s, step), k);
    if !step.Alloc? && !step.MarkZombie? {
      PeopleKept(s, step);
      assert SamePerson(s.procs[k], Next(s, step).procs[k]);
    }
  }

  lemma {:induction false} HeldOrReaped(s: State, step: Step, k: nat, pid: nat)
    requires Inv(s) && Enabled(s, step) && Inv(Next(s, step)) && Holds(s, k, pid)
    ensures Holds(Next(s, step), k, pid) || HasReaped(Next(s, step), pid)
    ensures Holds(Next(s, step), k, pid) && s.procs[k].state.Zombie? ==> Next(s, step).procs[k].state.Zombie?
  {
    if step.ReapFree? {
      if s.procs[step.i].at.k == k {
        assert Next(s, step).reaps[|s.reaps|].pid == pid;
      }
    } else {
      HeldUnlessReaping(s, step, k);
    }
  }

  /** A process keeps its slot, its memory and its being a zombie until it is reaped, and
      no longer. */
  lemma {:induction false} KeptUntilReaped(steps: seq<Step>, states: seq<State>, n: nat, m: nat, k: nat)
    requires Run(steps, states) && n <= m < |states| && k < |states[n].procs| && !states[n].procs[k].state.Unused?
    ensures Holds(states[m], k, states[n].procs[k].pid) <==> !HasReaped(states[m], states[n].procs[k].pid)
    ensures Holds(states[m], k, states[n].procs[k].pid) && states[n].procs[k].state.Zombie? ==>
      states[m].procs[k].state.Zombie?
    decreases m
  {
    var pid := states[n].procs[k].pid;
    RunInv(steps, states, m);
    assert k < |states[m].procs| ==> SlotOk(states[m], k) && PidOk(states[m], k);
    if m > n {
      var s, step := states[m - 1], steps[m - 1];
      KeptUntilReaped(steps, states, n, m - 1, k);
      RunInv(steps, states, m - 1);
      assert StepAt(steps, states, m - 1);
      if HasReaped(s, pid) {
        ReapedStays(s, step, pid);
      } else {
        HeldOrReaped(s, step, k, pid);
      }
    }
  }

  /** Nobody is lost and nobody is freed twice: every process ever forked sits, with its
      memory, in exactly one slot, or has been reaped exactly once and sits in none. */
  lemma {:induction false} EveryoneAccounted(steps: seq<Step>, states: seq<State>, n: nat, pid: nat)
    requires Run(steps, states) && n < |states| && 1 <= pid < states[n].nextpid
    ensures (exists k: nat :: Holds(states[n], k, pid)) <==> !HasReaped(states[n], pid)
    ensures forall k: nat, l: nat :: Holds(states[n], k, pid) && Holds(states[n], l, pid) ==> k == l
    ensures forall q: nat, r: nat {:trigger states[n].reaps[q], states[n].reaps[r]} ::
      (q < r < |states[n].reaps| && states[n].reaps[q].pid == pid ==> states[n].reaps[r].pid != pid)
  {
    RunInv(steps, states, n);
    forall k: nat | Holds(states[n], k, pid) ensures PidOk(states[n], k) {
    }
    forall q: nat, r: nat | q < r < |states[n].reaps| && states[n].reaps[q].pid == pid
      ensures states[n].reaps[r].pid != pid {
      assert ReapOk(states[n], r);
    }
    if n == 0 {
      assert Holds(states[0], INIT, 1);
    } else {
      RunInv(steps, states, n - 1);
      assert StepAt(steps, states, n - 1);
      var s, step := states[n - 1], steps[n - 1];
      if pid < s.nextpid {
        EveryoneAccounted(steps, states, n - 1, pid);
        if HasReaped(s, pid) {
          ReapedStays(s, step, pid);
        } else {
          var k: nat :| Holds(s, k, pid);
          HeldOrReaped(s, step, k, pid);
        }
      } else {
        assert Holds(states[n], step.c, pid);
      }
    }
  }

  // Whose children orphans become

  predicate Started(p: Proc) {
    !p.state.Unused? && !p.at.Embryo?
  }

  /** The parent of every process but init, once started, is one that can still wait. */
  lemma {:induction false} ParentCanWait(steps: seq<Step>, states: seq<State>, n: nat, j: nat)
    requires Run(steps, states) && n < |states| && j < |states[n].procs| && j != INIT && Started(states[n].procs[j])
    ensures 0 <= states[n].procs[j].parent < |states[n].procs| && states[n].procs[states[n].procs[j].parent].state.Used?
    ensures !states[n].procs[states[n].procs[j].parent].at.Orphaned?
  {
    RunInv(steps, states, n);
    var s := states[n];
    assert SlotOk(s, j) && FamilyOk(s, j) && SlotOk(s, s.procs[j].parent);
  }

  /** Process `q` of slot `i` does not look after slot `j` any more: its slot is free or
      another's, it has exited, or its exit has come past slot `j`. */
  ghost predicate HasLeft(s: State, i: nat, q: nat, j: nat)
    requires i < |s.procs|
  {
    var p := s.procs[i];
    p.state.Unused? || p.pid != q || p.at.Orphaned? || Exited(p.at) || (p.at.Reparenting? && p.at.k > j)
  }

  lemma {:induction false} LeaverLeaves(s: State, step: Step, q: nat, j: nat)
    requires Shape(s) && Enabled(s, step) && SlotOk(s, step.i) && !Special(step) && HasLeft(s, step.i, q, j)
    requires s.procs[step.i].pid == q && !s.procs[step.i].state.Unused?
    ensures step.i < |Next(s, step).procs| && HasLeft(Next(s, step), step.i, q, j)
  {
  }

  lemma {:induction false} LeaverPassed(s: State, step: Step, i: nat, q: nat, j: nat)
    requires Shape(s) && Enabled(s, step) && i < |s.procs| && SlotOk(s, i) && SlotOk(s, step.i) && FamilyOk(s, step.i)
    requires Special(step) && q < s.nextpid && HasLeft(s, i, q, j)
    ensures i < |Next(s, step).procs| && HasLeft(Next(s, step), i, q, j)
  {
  }

  lemma {:induction false} LeftForGood(s: State, step: Step, i: nat, q: nat, j: nat)
    requires Inv(s) && Enabled(s, step) && i < |s.procs| && q < s.nextpid && HasLeft(s, i, q, j)
    ensures i < |Next(s, step).procs| && HasLeft(Next(s, step), i, q, j)
  {
    assert SlotOk(s, step.i) && SlotOk(s, i) && FamilyOk(s, step.i);
    if Special(step) {
      LeaverPassed(s, step, i, q, j);
    } else {
      MildSteps(s, step);
      if i == step.i && s.procs[i].pid == q && !s.procs[i].state.Unused? {
        LeaverLeaves(s, step, q, j);
      } else if i == step.i && !step.MarkZombie? {
        SamePid(s, step);
      }
    }
  }

  /** Slot `j` keeps its parent, or is handed to init. */
  ghost predicate ParentStays(s: State, step: Step, t: State, j: nat)
    requires Shape(s) && Enabled(s, step) && j < |s.procs| && j < |t.procs|
  {
    !t.procs[j].state.Unused? ==>
      && Started(t.procs[j])
      && (|| t.procs[j].parent == s.procs[j].parent
          || (t.procs[j].parent == INIT && step.Reparent? && s.procs[j].parent == step.i
              && s.procs[step.i].at == Reparenting(j)))
  }

  lemma {:induction false} ParentHanded(s: State, step: Step, j: nat)
    requires Shape(s) && Enabled(s, step) && j < |s.procs| && Started(s.procs[j]) && SlotOk(s, j) && FamilyOk(s, step.i)
    requires Special(step) && SlotOk(s, step.i)
    ensures j < |Next(s, step).procs| && ParentStays(s, step, Next(s, step), j)
  {
  }

  lemma {:induction false} ParentKept(s: State, step: Step, j: nat)
    requires Inv(s) && Enabled(s, step) && j < |s.procs| && Started(s.procs[j])
    ensures j < |Next(s, step).procs| && ParentStays(s, step, Next(s, step), j)
  {
    assert SlotOk(s, step.i) && SlotOk(s, j) && FamilyOk(s, step.i);
    if Special(step) {
      ParentHanded(s, step, j);
    } else {
      MildSteps(s, step);
    }
  }

  lemma {:induction false} OrphanStep(s: State, step: Step, i: nat, q: nat, j: nat)
    requires Inv(s) && Enabled(s, step) && Inv(Next(s, step)) && q < s.nextpid
    requires i < |s.procs| && j < |s.procs| && j != INIT && Started(s.procs[j])
    requires j < |Next(s, step).procs| && !Next(s, step).procs[j].state.Unused?
    requires s.procs[j].parent == if HasLeft(s, i, q, j) then INIT else i
    ensures |Next(s, step).procs| == |s.procs| && Started(Next(s, step).procs[j])
    ensures Next(s, step).procs[j].parent == if HasLeft(Next(s, step), i, q, j) then INIT else i
  {
    var t := Next(s, step);
    assert SlotOk(s, step.i);
    ShapeKept(s, step);
    ParentKept(s, step, j);
    if HasLeft(s, i, q, j) {
      LeftForGood(s, step, i, q, j);
    } else if t.procs[j].parent == i && i != INIT {
      assert FamilyOk(t, j) && Abandons(t, i, j) && SlotOk(t, i);
      if !step.ReapFree? {
        HeldUnlessReaping(s, step, i);
      }
    }
  }

  lemma {:induction false} PidsGrow(steps: seq<Step>, states: seq<State>, n: nat, m: nat)
    requires Run(steps, states) && n <= m < |states|
    ensures states[n].nextpid <= states[m].nextpid
    decreases m
  {
    if m > n {
      PidsGrow(steps, states, n, m - 1);
      assert StepAt(steps, states, m - 1);
    }
  }

  /** Orphans go to init.  Between any two points of a run a process keeps its parent, which is
      the same process, until that one leaves; from then on its parent is init. */
  lemma {:induction false} OrphansHaveInit(steps: seq<Step>, states: seq<State>, n: nat, m: nat, j: nat)
    requires Run(steps, states) && n <= m < |states| && j < |states[n].procs| && j != INIT
    requires Started(states[n].procs[j]) && Holds(states[m], j, states[n].procs[j].pid)
    ensures Started(states[m].procs[j])
    ensures var i := states[n].procs[j].parent;
      && 0 <= i < |states[n].procs| == |states[m].procs|
      && states[m].procs[j].parent == if HasLeft(states[m], i, states[n].procs[i].pid, j) then INIT else i
    decreases m
  {
    RunInv(steps, states, n);
    ParentCanWait(steps, states, n, j);
    var i := states[n].procs[j].parent;
    assert FamilyOk(states[n], j) && PidOk(states[n], i);
    if m > n {
      var s, step := states[m - 1], steps[m - 1];
      KeptUntilReaped(steps, states, n, m, j);
      KeptUntilReaped(steps, states, n, m - 1, j);
      assert StepAt(steps, states, m - 1);
      if HasReaped(s, states[n].procs[j].pid) {
        ReapedStays(s, step, states[n].procs[j].pid);
      }
      OrphansHaveInit(steps, states, n, m - 1, j);
      RunInv(steps, states, m - 1);
      RunInv(steps, states, m);
      PidsGrow(steps, states, n, m - 1);
      OrphanStep(s, step, i, states[n].procs[i].pid, j);
    }
  }
}
