/** Users of sleep and wakeup: sleep locks (kernel/sleeplock.c), log operations
    (kernel/log.c), disk descriptors (kernel/virtio_disk.c), kthread_join
    (kernel/kthread.c), wait (kernel/proc.c) and pipes (kernel/pipe.c).  A section is
    what a thread does between taking the lock, or waking up with it, and giving it up or
    going to sleep. */
module WakeupClients {
  import opened Common
  import opened Wakeup
  import Pipe
  import VirtioQueue

  datatype Section<S> = Section(next: S, sleeps: bool, wakes: bool)

  // Sleep locks: wait while locked

  datatype SleepLock = SleepLock(locked: bool, pid: nat)

  function AcquireSleep(l: SleepLock, pid: nat): Section<SleepLock> {
    if l.locked then Section(l, true, false) else Section(SleepLock(true, pid), false, false)
  }

  function ReleaseSleep(l: SleepLock): Section<SleepLock> {
    Section(SleepLock(false, 0), false, true)
  }

  ghost predicate SleepLockStep(l: SleepLock, x: Section<SleepLock>) {
    (exists pid :: x == AcquireSleep(l, pid)) || x == ReleaseSleep(l)
  }

  ghost function SleepLocks(): Client<SleepLock> {
    Client(
      (l: SleepLock) => !l.locked,
      (l, n) => exists sleeps, wakes :: SleepLockStep(l, Section(n, sleeps, wakes)),
      (l, n) => exists sleeps :: SleepLockStep(l, Section(n, sleeps, true)),
      (l, n) => false,
      (l, n) => false,
      (l, n) => false)
  }

  // Log operations: wait while the log is committing or might run out of space

  datatype LogState = LogState(outstanding: nat, committing: bool, n: nat)

  predicate CanBegin(g: LogState) {
    !g.committing && g.n + (g.outstanding + 1) * MAXOPBLOCKS <= LOGSIZE
  }

  function BeginOp(g: LogState): Section<LogState> {
    if g.committing then Section(g, true, false)
    else if g.n + (g.outstanding + 1) * MAXOPBLOCKS > LOGSIZE then Section(g, true, false)
    else Section(g.(outstanding := g.outstanding + 1), false, false)
  }

  /** end_op, first part: the last operation starts a commit, others wake waiters. */
  function EndOp(g: LogState): Section<LogState>
    requires g.outstanding > 0 && !g.committing
  {
    if g.outstanding == 1 then Section(g.(outstanding := 0, committing := true), false, false)
    else Section(g.(outstanding := g.outstanding - 1), false, true)
  }

  /** end_op, after the commit. */
  function Committed(g: LogState): Section<LogState> {
    Section(g.(committing := false), false, true)
  }

  /** log_write adds a block at most. */
  function LogWrite(g: LogState, absorbed: bool): Section<LogState> {
    Section(if absorbed then g else g.(n := g.n + 1), false, false)
  }

  ghost predicate LogStep(g: LogState, x: Section<LogState>) {
    || x == BeginOp(g) || (g.outstanding > 0 && !g.committing && x == EndOp(g)) || (g.committing && x == Committed(g))
    || x == LogWrite(g, true) || x == LogWrite(g, false)
  }

  ghost function LogOps(): Client<LogState> {
    Client(
      g => CanBegin(g),
      (g, x) => exists sleeps, wakes :: LogStep(g, Section(x, sleeps, wakes)),
      (g, x) => exists sleeps :: LogStep(g, Section(x, sleeps, true)),
      (g, x) => false,
      (g, x) => false,
      (g: LogState, x: LogState) => g.committing && x == g.(n := 0))   // commit empties the header without the lock
  }

  // Disk descriptors: wait for three free ones

  /** The free descriptors; alloc_desc takes one, free_desc gives one back and calls
      wakeup. */
  ghost function Descriptors(): Client<set<nat>> {
    Client(
      (f: set<nat>) => |f| >= 3,
      (f: set<nat>, n: set<nat>) => n == f || exists d: nat :: d < VirtioQueue.NUM && (n == f + {d} || n == f - {d}),
      (f: set<nat>, n: set<nat>) => f < n,
      (f, n) => false,
      (f, n) => false,
      (f, n) => false)
  }

  // kthread_join against kthread_exit: wait for a zombie

  datatype ThreadState = Unused | Alive | Zombie

  /** The thread turns into a zombie without p->lock; it then takes p->lock and calls
      wakeup.  The joiner frees it under p->lock. */
  ghost function Join(): Client<ThreadState> {
    Client(
      t => t == Zombie,
      (t, n) => t == Zombie && n == Unused,
      (t, n) => false,
      (t, n) => false,
      (t, n) => t == Alive && n == Zombie,
      (t, n) => t == Unused && n == Alive)         // kthread_create
  }

  // wait against exit: wait for a zombie child

  /** The children of a process. */
  datatype Family = Family(alive: nat, zombies: nat)

  /** exit of a child: it has called wakeup on its parent, and turns into a zombie later in
      the same stretch under wait_lock. */
  predicate ChildExits(f: Family, n: Family) {
    f.alive > 0 && n == Family(f.alive - 1, f.zombies + 1)
  }

  /** fork adds a child, without a wakeup; so may reparent, which then calls wakeup. */
  predicate ChildBorn(f: Family, n: Family) {
    n == f.(alive := f.alive + 1)
  }

  /** reparent gives init a zombie and calls wakeup on init. */
  predicate Adopts(f: Family, n: Family) {
    n == f.(zombies := f.zombies + 1)
  }

  /** wait frees a zombie; the exit of the process itself gives a child to init. */
  predicate Loses(f: Family, n: Family) {
    (f.zombies > 0 && n == f.(zombies := f.zombies - 1)) || (f.alive > 0 && n == f.(alive := f.alive - 1))
  }

  ghost function Children(): Client<Family> {
    Client(
      (f: Family) => f.zombies > 0,
      (f, n) => ChildBorn(f, n) || ChildExits(f, n) || Adopts(f, n) || Loses(f, n),
      (f, n) => Adopts(f, n),
      (f, n) => ChildExits(f, n),
      (f, n) => false,
      (f, n) => false)
  }

  // Pipes: readers wait while the pipe is empty and open for writing, writers while it is
  // full and open for reading

  datatype PipeState = PipeState(count: nat, readopen: bool, writeopen: bool, killed: nat)

  /** What a call does between taking the lock, or waking up with it, and giving it up:
      pipewrite adds bytes, piperead takes bytes, pipeclose closes an end. */
  predicate PipeSection(p: PipeState, n: PipeState) {
    || (n == p.(count := n.count) && n.count <= Pipe.PIPESIZE)
    || n == p.(writeopen := false) || n == p.(readopen := false)
  }

  /** pipewrite adds bytes, finds that its process has been killed meanwhile, and returns. */
  predicate Abandons(p: PipeState, n: PipeState) {
    n == p.(count := n.count, killed := p.killed + 1) && p.count < n.count <= Pipe.PIPESIZE
  }

  ghost function PipeReaders(): Client<PipeState> {
    Client(
      (p: PipeState) => p.count > 0 || !p.writeopen,
      (p, n) => PipeSection(p, n) || Abandons(p, n),
      (p: PipeState, n: PipeState) => n.killed == p.killed && (p.count < n.count || (p.writeopen && !n.writeopen)),
      (p, n) => false,
      (p, n) => false,
      (p: PipeState, n: PipeState) => n == p.(killed := p.killed + 1))
  }

  ghost function PipeWriters(): Client<PipeState> {
    Client(
      (p: PipeState) => p.count < Pipe.PIPESIZE || !p.readopen,
      (p, n) => PipeSection(p, n) || Abandons(p, n),
      (p: PipeState, n: PipeState) => n.count < p.count || (p.readopen && !n.readopen),
      (p, n) => false,
      (p, n) => false,
      (p: PipeState, n: PipeState) => n == p.(killed := p.killed + 1))
  }

  lemma {:induction false} SleepLocksOblige()
    ensures Obliging(SleepLocks()) && UnderLock(SleepLocks())
  {
    forall l, n | SleepLocks().inside(l, n) && !SleepLocks().cond(l) && SleepLocks().cond(n)
      ensures SleepLocks().wakes(l, n)
    {
      var sleeps, wakes :| SleepLockStep(l, Section(n, sleeps, wakes));
      assert SleepLockStep(l, Section(n, sleeps, true));
    }
  }

  lemma {:induction false} LogStepWakes(g: LogState, x: Section<LogState>)
    requires LogStep(g, x) && !CanBegin(g) && CanBegin(x.next)
    ensures x.wakes
  {
  }

  lemma {:induction false} LogOpsOblige()
    ensures Obliging(LogOps()) && UnderLock(LogOps())
  {
    forall g, x | LogOps().inside(g, x) && !LogOps().cond(g) && LogOps().cond(x) ensures LogOps().wakes(g, x) {
      var sleeps, wakes :| LogStep(g, Section(x, sleeps, wakes));
      LogStepWakes(g, Section(x, sleeps, wakes));
      assert LogStep(g, Section(x, sleeps, true));
    }
  }

  /** A free sleep lock has no sleepers; nor has a log that has room for another
      operation, or a disk with three free descriptors. */
  lemma {:induction false} SleepLockWaiters(steps: seq<Step<SleepLock>>, states: seq<State<SleepLock>>, n: nat, i: nat)
    requires Run(SleepLocks(), steps, states) && n < |states| && i < |states[n].place| && states[n].lock == NOBODY
    requires !states[n].shared.locked
    ensures Shape(states[n]) && !states[n].asleep[i]
  {
    SleepLocksOblige();
    NobodySleeps(SleepLocks(), steps, states, n, i);
  }

  lemma {:induction false} LogWaiters(steps: seq<Step<LogState>>, states: seq<State<LogState>>, n: nat, i: nat)
    requires Run(LogOps(), steps, states) && n < |states| && i < |states[n].place| && states[n].lock == NOBODY
    requires CanBegin(states[n].shared)
    ensures Shape(states[n]) && !states[n].asleep[i]
  {
    LogOpsOblige();
    NobodySleeps(LogOps(), steps, states, n, i);
  }

  lemma {:induction false} DescriptorsOblige()
    ensures Obliging(Descriptors()) && UnderLock(Descriptors())
  {
    forall f: set<nat>, n: set<nat> | Descriptors().inside(f, n) && |f| < 3 <= |n| ensures f < n {
      if n != f {
        var d: nat :| d < VirtioQueue.NUM && (n == f + {d} || n == f - {d});
        SubsetCount(f - {d}, f);
      }
    }
  }

  lemma {:induction false} DescriptorWaiters(steps: seq<Step<set<nat>>>, states: seq<State<set<nat>>>, n: nat, i: nat)
    requires Run(Descriptors(), steps, states) && n < |states| && i < |states[n].place| && states[n].lock == NOBODY
    requires |states[n].shared| >= 3
    ensures Shape(states[n]) && !states[n].asleep[i]
  {
    DescriptorsOblige();
    NobodySleeps(Descriptors(), steps, states, n, i);
  }

  /** Nobody sleeps in wait while it has a zombie child. */
  lemma {:induction false} ParentWaits(steps: seq<Step<Family>>, states: seq<State<Family>>, n: nat, i: nat)
    requires Run(Children(), steps, states) && n < |states| && i < |states[n].place| && states[n].lock == NOBODY
    requires states[n].shared.zombies > 0
    ensures Shape(states[n]) && !states[n].asleep[i]
  {
    NobodySleeps(Children(), steps, states, n, i);
  }

  lemma {:induction false} PipeWriterWaits(steps: seq<Step<PipeState>>, states: seq<State<PipeState>>, n: nat, i: nat)
    requires Run(PipeWriters(), steps, states) && n < |states| && i < |states[n].place| && states[n].lock == NOBODY
    requires states[n].shared.count < Pipe.PIPESIZE || !states[n].shared.readopen
    ensures Shape(states[n]) && !states[n].asleep[i]
  {
    NobodySleeps(PipeWriters(), steps, states, n, i);
  }

  lemma {:induction false} Then(c: Client<PipeState>, steps: seq<Step<PipeState>>, states: seq<State<PipeState>>,
      step: Step<PipeState>)
    returns (steps': seq<Step<PipeState>>, states': seq<State<PipeState>>)
    requires Run(c, steps, states)
    requires Shape(states[|steps|]) && Enabled(c, states[|steps|], step)
    ensures Run(c, steps', states') && |steps'| == |steps| + 1
    ensures states'[|steps'|] == Next(c, states[|steps|], step)
  {
    RunLonger(c, steps, states, step);
    steps', states' := steps + [step], states + [Next(c, states[|steps|], step)];
  }

  lemma {:induction false} ReaderCommits(c: Client<PipeState>, p: PipeState)
    returns (steps: seq<Step<PipeState>>, states: seq<State<PipeState>>)
    requires !c.cond(p)
    ensures Run(c, steps, states)
    ensures states[|steps|] ==
      State(p, NOBODY, [0, NOBODY], [Place.Committed, Out], [false, false], [false, false], [false, false])
  {
    steps := [];
    states := [State(p, NOBODY, [NOBODY, NOBODY], [Out, Out], [false, false], [false, false], [false, false])];
    steps, states := Then(c, steps, states, Acquire(0));
    steps, states := Then(c, steps, states, Check(0));
    steps, states := Then(c, steps, states, TakeOwn(0));
    steps, states := Then(c, steps, states, GiveUp(0));
  }

  /** A reader goes to sleep on an empty pipe. */
  lemma {:induction false} ReaderSleeps(c: Client<PipeState>, p: PipeState)
    returns (steps: seq<Step<PipeState>>, states: seq<State<PipeState>>)
    requires !c.cond(p)
    ensures Run(c, steps, states)
    ensures states[|steps|] == State(p, NOBODY, [NOBODY, NOBODY], [Off, Out], [true, false], [false, false],
        [false, false])
  {
    steps, states := ReaderCommits(c, p);
    steps, states := Then(c, steps, states, Mark(0));
    steps, states := Then(c, steps, states, Switch(0));
  }

  /** A reader sleeps, a writer adds a byte, is killed, and leaves without a wakeup. */
  lemma {:induction false} KilledWriter() returns (steps: seq<Step<PipeState>>, states: seq<State<PipeState>>)
    ensures Run(PipeReaders(), steps, states) && Lost(PipeReaders(), states[|steps|], 0)
    ensures states[|steps|].shared == PipeState(1, true, true, 1)
  {
    var c := PipeReaders();
    steps, states := ReaderSleeps(c, PipeState(0, true, true, 0));
    steps, states := Then(c, steps, states, Acquire(1));
    steps, states := Then(c, steps, states, Inside(1, PipeState(1, true, true, 1)));
    steps, states := Then(c, steps, states, Release(1));
  }

  /** Step `m` is a pipewrite that is killed after it has added bytes to an empty pipe, on
      which reader `i` sleeps; up to state `n` nobody wakes the reader, and there is
      something to read. */
  ghost predicate Abandoned(steps: seq<Step<PipeState>>, states: seq<State<PipeState>>, m: nat, n: nat, i: nat) {
    && m < n < |states| && m < |steps|
    && steps[m].Inside? && states[m].shared.count == 0 && Abandons(states[m].shared, steps[m].next)
    && Shape(states[m]) && i < |states[m].place| && Sleepish(states[m], i)
    && forall k :: m < k <= n ==> Waits(PipeReaders(), states[k], i)
  }

  /** A killed writer's change is the only unannounced one. */
  lemma {:induction false} OnlyAbandoning(s: State<PipeState>, step: Step<PipeState>)
    requires Shape(s) && Enabled(PipeReaders(), s, step) && Unannounced(PipeReaders(), s, step)
    ensures step.Inside? && s.shared.count == 0 && Abandons(s.shared, step.next)
  {
  }

  lemma {:induction false} LeftBehindAbandoned(steps: seq<Step<PipeState>>, states: seq<State<PipeState>>, m: nat,
      n: nat,
      i: nat)
    requires Run(PipeReaders(), steps, states) && LeftBehind(PipeReaders(), steps, states, m, n, i)
    ensures Abandoned(steps, states, m, n, i)
  {
    assert StepAt(PipeReaders(), steps, states, m);
    OnlyAbandoning(states[m], steps[m]);
  }

  lemma {:induction false} AbandonedLost(steps: seq<Step<PipeState>>, states: seq<State<PipeState>>, m: nat, n: nat,
      i: nat)
    requires Run(PipeReaders(), steps, states) && Abandoned(steps, states, m, n, i) && Quiet(states[n])
    ensures Lost(PipeReaders(), states[n], i)
  {
    RunCore(PipeReaders(), steps, states, n);
    assert Waits(PipeReaders(), states[n], i) && ThreadOk(states[n], i);
  }

  /** In every run, a reader is lost exactly if a killed writer has abandoned it. */
  lemma {:induction false} PipeReaderLost(steps: seq<Step<PipeState>>, states: seq<State<PipeState>>, n: nat, i: nat)
    requires Run(PipeReaders(), steps, states) && n < |states| && Quiet(states[n])
    ensures Lost(PipeReaders(), states[n], i) <==> exists m: nat :: Abandoned(steps, states, m, n, i)
  {
    LostExactly(PipeReaders(), steps, states, n, i);
    if m: nat :| LeftBehind(PipeReaders(), steps, states, m, n, i) {
      LeftBehindAbandoned(steps, states, m, n, i);
    }
    if m: nat :| Abandoned(steps, states, m, n, i) {
      AbandonedLost(steps, states, m, n, i);
    }
  }

  lemma {:induction false} AbandonsUnannounced(s: State<PipeState>, u: nat, next: PipeState)
    requires PipeReaders().inside(s.shared, next) && s.shared.count == 0 && s.shared.writeopen
    ensures Unannounced(PipeReaders(), s, Inside(u, next)) <==> Abandons(s.shared, next)
  {
  }

  /** A section that finds the pipe empty and a reader asleep leaves the reader lost, when
      it gives up the lock, exactly if it is a killed writer's and has added bytes. */
  lemma {:induction false} SectionLosesReader(steps: seq<Step<PipeState>>, states: seq<State<PipeState>>, u: nat,
      next: PipeState, i: nat)
    requires Run(PipeReaders(), steps, states)
    requires Shape(states[|steps|]) && Enabled(PipeReaders(), states[|steps|], Inside(u, next))
    requires var s := states[|steps|]; i < |s.place| && s.asleep[i] && s.shared.count == 0 && s.shared.writeopen
    requires forall v :: 0 <= v < |states[|steps|].due| ==> !states[|steps|].due[v]
    ensures LeavesLost(PipeReaders(), states[|steps|], u, next, i) <==> Abandons(states[|steps|].shared, next)
  {
    ReleaseLoses(PipeReaders(), steps, states, u, next, i);
    AbandonsUnannounced(states[|steps|], u, next);
  }

  /** A joiner sleeps on a zombie only until the exiting thread has taken p->lock. */
  lemma {:induction false} JoinWaiter(steps: seq<Step<ThreadState>>, states: seq<State<ThreadState>>, n: nat, i: nat)
    requires Run(Join(), steps, states) && n < |states| && i < |states[n].place| && states[n].lock == NOBODY
    requires states[n].shared == Zombie
    ensures Shape(states[n])
    ensures states[n].asleep[i] ==> exists u: nat ::
      u < |states[n].place| && states[n].due[u] && (states[n].place[u].Out? || states[n].place[u].OutLocked?)
  {
    NoLostWakeup(Join(), steps, states, n, i);
  }
}
