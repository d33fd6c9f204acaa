/** sleep and wakeup (kernel/proc.c) as steps of threads that share a condition, a lock
    that protects it, and a channel to wait on.  Every thread also has a lock of its own,
    t_lock, which sleep holds while it gives up the other one. */
module Wakeup {
  /** What the threads share and do with it.  A thread waits while `cond` is false. */
  datatype Client<!S> = Client(
    cond: S -> bool,
    inside: (S, S) -> bool,      // changes made while holding the lock
    wakes: (S, S) -> bool,       // those after which wakeup is called before the lock is released
    woken: (S, S) -> bool,       // those before which it has been called, since the lock was taken
    outside: (S, S) -> bool,     // changes made without it, by a thread that then takes the lock and calls wakeup
    aside: (S, S) -> bool)       // changes made without it, and without a wakeup

  /** Whoever makes the condition true sees to it that wakeup is called. */
  ghost predicate Obliging<S(!new)>(c: Client<S>) {
    && (forall s, t {:trigger c.inside(s, t)} ::
           c.inside(s, t) && !c.cond(s) && c.cond(t) ==> c.wakes(s, t) || c.woken(s, t))
    && (forall s, t {:trigger c.aside(s, t)} :: c.aside(s, t) && c.cond(t) ==> c.cond(s))
  }

  /** Where a thread is. */
  datatype Place =
    | Out                   // elsewhere, without the lock
    | OutLocked             // elsewhere, holding its t_lock
    | In                    // holding the lock
    | Checked               // has found the condition false, and calls sleep
    | Locked                // in sleep, holding both locks
    | Committed             // in sleep, having released the lock
    | Switching             // marked as sleeping, about to switch away
    | Off                   // off the CPU, its t_lock released by the scheduler
    | Back                  // running again, holding its t_lock
    | Scan(k: nat)          // in wakeup, next looking at thread k
    | Scanning(k: nat)      // in wakeup, holding the t_lock of thread k

  const NOBODY: int := -1

  datatype State<S> = State(
    shared: S,
    lock: int,              // the thread holding the lock
    tlock: seq<int>,        // the thread holding each t_lock
    place: seq<Place>,
    asleep: seq<bool>,      // SLEEPING_t on the channel
    due: seq<bool>,         // still has to call wakeup
    woke: seq<bool>)        // has called wakeup since it took the lock

  datatype Step<S> =
    | Acquire(i: nat) | Release(i: nat) | Inside(i: nat, next: S) | Outside(i: nat, next: S) | Aside(i: nat, next: S)
    | Check(i: nat) | TakeOwn(i: nat) | GiveUp(i: nat) | Mark(i: nat) | Switch(i: nat)
    | Resume(i: nat) | Tidy(i: nat)
    | StartScan(i: nat) | Skip(i: nat) | LockNext(i: nat) | Wake(i: nat) | EndScan(i: nat)
    | Kick(i: nat, j: nat) | OwnLock(i: nat) | OwnUnlock(i: nat)

  predicate Shape<S>(s: State<S>) {
    |s.tlock| == |s.place| == |s.asleep| == |s.due| == |s.woke|
  }

  ghost predicate Enabled<S>(c: Client<S>, s: State<S>, step: Step<S>)
    requires Shape(s)
  {
    step.i < |s.place| &&
    var at := s.place[step.i];
    match step
    case Acquire(i) => at == Out && s.lock == NOBODY
    case Release(i) => at == In && !s.due[i]
    case Inside(i, next) => at == In && c.inside(s.shared, next) && (c.woken(s.shared, next) ==> s.woke[i])
    case Outside(i, next) => at == Out && c.outside(s.shared, next)
    case Aside(i, next) => at == Out && c.aside(s.shared, next)
    case Check(i) => at == In && !s.due[i] && !c.cond(s.shared)
    case TakeOwn(i) => at == Checked && s.tlock[i] == NOBODY
    case GiveUp(i) => at == Locked
    case Mark(i) => at == Committed
    case Switch(i) => at == Switching
    case Resume(i) => at == Off && !s.asleep[i] && s.tlock[i] == NOBODY
    case Tidy(i) => at == Back
    case StartScan(i) => at == In
    case Skip(i) => at == Scan(i)
    case LockNext(i) => at.Scan? && at.k < |s.place| && at.k != i && s.tlock[at.k] == NOBODY
    case Wake(i) => at.Scanning? && at.k < |s.place|
    case EndScan(i) => at == Scan(|s.place|)
    case Kick(i, j) => at == Out && j < |s.place| && s.tlock[j] == NOBODY
    case OwnLock(i) => at == Out && s.tlock[i] == NOBODY
    case OwnUnlock(i) => at == OutLocked
  }

  ghost function Next<S>(c: Client<S>, s: State<S>, step: Step<S>): State<S>
    requires Shape(s) && Enabled(c, s, step)
  {
    match step
    case Acquire(i) => s.(lock := i, place := s.place[i := In])
    case Release(i) => s.(lock := NOBODY, place := s.place[i := Out], woke := s.woke[i := false])
    case Inside(i, next) => s.(shared := next, due := s.due[i := s.due[i] || c.wakes(s.shared, next)])
    case Outside(i, next) => s.(shared := next, due := s.due[i := true])
    case Aside(i, next) => s.(shared := next)
    case Check(i) => s.(place := s.place[i := Checked], woke := s.woke[i := false])
    case TakeOwn(i) => s.(tlock := s.tlock[i := i], place := s.place[i := Locked])
    case GiveUp(i) => s.(lock := NOBODY, place := s.place[i := Committed], woke := s.woke[i := false])
    case Mark(i) => s.(asleep := s.asleep[i := true], place := s.place[i := Switching])
    case Switch(i) => s.(tlock := s.tlock[i := NOBODY], place := s.place[i := Off])
    case Resume(i) => s.(tlock := s.tlock[i := i], place := s.place[i := Back])
    case Tidy(i) => s.(tlock := s.tlock[i := NOBODY], place := s.place[i := Out])
    case StartScan(i) => s.(place := s.place[i := Scan(0)])
    case Skip(i) => s.(place := s.place[i := Scan(i + 1)])
    case LockNext(i) => s.(tlock := s.tlock[s.place[i].k := i], place := s.place[i := Scanning(s.place[i].k)])
    case Wake(i) =>
      var k := s.place[i].k;
      s.(asleep := s.asleep[k := false], tlock := s.tlock[k := NOBODY], place := s.place[i := Scan(k + 1)])
    case EndScan(i) => s.(due := s.due[i := false], woke := s.woke[i := true], place := s.place[i := In])
    case Kick(i, j) => s.(asleep := s.asleep[j := false])
    case OwnLock(i) => s.(tlock := s.tlock[i := i], place := s.place[i := OutLocked])
    case OwnUnlock(i) => s.(tlock := s.tlock[i := NOBODY], place := s.place[i := Out])
  }

  // Invariant

  predicate HoldsLock(p: Place) {
    p.In? || p.Checked? || p.Locked? || p.Scan? || p.Scanning?
  }

  predicate HoldsOwn(p: Place) {
    p.OutLocked? || p.Locked? || p.Committed? || p.Switching? || p.Back?
  }

  /** On the way to sleep, or asleep and not woken. */
  predicate Sleepish<S>(s: State<S>, i: nat)
    requires Shape(s) && i < |s.place|
  {
    s.place[i].Checked? || s.place[i].Locked? || s.place[i].Committed? || s.asleep[i]
  }

  /** Thread `u` will call wakeup and has not looked at thread `i` yet. */
  predicate Coming<S>(s: State<S>, u: nat, i: nat)
    requires Shape(s)
  {
    u < |s.place| && s.due[u] && ((s.place[u].Scan? || s.place[u].Scanning?) ==> s.place[u].k <= i)
  }

  ghost predicate ThreadOk<S>(s: State<S>, i: nat)
    requires Shape(s) && i < |s.place|
  {
    && (HoldsLock(s.place[i]) <==> s.lock == i)
    && (HoldsOwn(s.place[i]) <==> s.tlock[i] == i)
    && (s.tlock[i] != i && s.tlock[i] != NOBODY ==> 0 <= s.tlock[i] < |s.place| && s.place[s.tlock[i]] == Scanning(i))
    && (s.place[i].Scanning? ==> s.place[i].k < |s.place| && s.place[i].k != i && s.tlock[s.place[i].k] == i)
    && (s.place[i].Scan? ==> s.place[i].k <= |s.place|)
    && (s.asleep[i] ==> s.place[i].Switching? || s.place[i].Off?)
    && (s.due[i] ==>
         s.place[i].Out? || s.place[i].OutLocked? || s.place[i].In? || s.place[i].Scan? || s.place[i].Scanning?)
  }

  /** A thread that has passed thread `j` in its scan, or has come to the end of one since
      it took the lock, has left it awake. */
  ghost predicate PassedOk<S>(s: State<S>, i: nat, j: nat)
    requires Shape(s) && i < |s.place| && j < |s.place|
  {
    && (s.woke[i] ==> s.place[i].In? || s.place[i].Scan? || s.place[i].Scanning?)
    && (i != j && (s.woke[i] || ((s.place[i].Scan? || s.place[i].Scanning?) && j < s.place[i].k)) ==> !Sleepish(s, j))
  }

  ghost predicate SleeperOk<S>(c: Client<S>, s: State<S>, i: nat)
    requires Shape(s) && i < |s.place|
  {
    Sleepish(s, i) && c.cond(s.shared) ==> exists u: nat :: Coming(s, u, i)
  }

  /** What every step keeps, whatever the client does. */
  ghost predicate Core<S>(s: State<S>) {
    && Shape(s) && (s.lock == NOBODY || 0 <= s.lock < |s.place|)
    && (forall i: nat {:trigger ThreadOk(s, i)} :: i < |s.place| ==> ThreadOk(s, i))
    && (forall i: nat, j: nat {:trigger PassedOk(s, i, j)} :: i < |s.place| && j < |s.place| ==> PassedOk(s, i, j))
  }

  /** What every step of an obliging client keeps. */
  ghost predicate Inv<S>(c: Client<S>, s: State<S>) {
    Core(s) && forall i: nat {:trigger SleeperOk(c, s, i)} :: i < |s.place| ==> SleeperOk(c, s, i)
  }

  ghost predicate Init<S>(s: State<S>) {
    && Shape(s) && s.lock == NOBODY
    && forall i: nat ::
      i < |s.place| ==> s.tlock[i] == NOBODY && s.place[i] == Out && !s.asleep[i] && !s.due[i] && !s.woke[i]
  }

  // Steps of the lock and of sleep, and steps of wakeup and of t_lock

  ghost predicate Scans<S>(step: Step<S>) {
    step.StartScan? || step.Skip? || step.LockNext? || step.Wake? || step.EndScan?
  }

  ghost predicate Sleeps<S>(step: Step<S>) {
    step.Check? || step.TakeOwn? || step.GiveUp? || step.Mark? || step.Switch? || step.Resume? || step.Tidy?
  }

  lemma {:induction false} ThreadsFalling<S(!new)>(c: Client<S>, s: State<S>, step: Step<S>, j: nat)
    requires Core(s) && Enabled(c, s, step) && j < |s.place| && (step.Check? || step.TakeOwn? || step.GiveUp?)
    ensures Shape(Next(c, s, step)) && ThreadOk(Next(c, s, step), j)
  {
    assert ThreadOk(s, step.i) && ThreadOk(s, j);
  }

  lemma {:induction false} ThreadsSleeping<S(!new)>(c: Client<S>, s: State<S>, step: Step<S>, j: nat)
    requires Core(s) && Enabled(c, s, step) && j < |s.place| && Sleeps(step)
    ensures Shape(Next(c, s, step)) && ThreadOk(Next(c, s, step), j)
  {
    if step.Check? || step.TakeOwn? || step.GiveUp? {
      ThreadsFalling(c, s, step, j);
    } else {
      assert ThreadOk(s, step.i) && ThreadOk(s, j);
    }
  }

  lemma {:induction false} ThreadsScanned<S(!new)>(c: Client<S>, s: State<S>, step: Step<S>, j: nat)
    requires Core(s) && Enabled(c, s, step) && j < |s.place| && Scans(step)
    ensures Shape(Next(c, s, step)) && ThreadOk(Next(c, s, step), j)
  {
    assert ThreadOk(s, step.i) && ThreadOk(s, j);
    if 0 <= s.tlock[j] < |s.place| {
      assert ThreadOk(s, s.tlock[j]);
    }
  }

  lemma {:induction false} ThreadsElse<S(!new)>(c: Client<S>, s: State<S>, step: Step<S>, j: nat)
    requires Core(s) && Enabled(c, s, step) && j < |s.place| && !Scans(step) && !Sleeps(step)
    ensures Shape(Next(c, s, step)) && ThreadOk(Next(c, s, step), j)
  {
    assert ThreadOk(s, step.i) && ThreadOk(s, j);
  }

  lemma {:induction false} ThreadsKept<S(!new)>(c: Client<S>, s: State<S>, step: Step<S>, j: nat)
    requires Core(s) && Enabled(c, s, step) && j < |s.place|
    ensures Shape(Next(c, s, step)) && ThreadOk(Next(c, s, step), j)
  {
    if Scans(step) {
      ThreadsScanned(c, s, step, j);
    } else if Sleeps(step) {
      ThreadsSleeping(c, s, step, j);
    } else {
      ThreadsElse(c, s, step, j);
    }
  }

  lemma {:induction false} PassedSleeping<S(!new)>(c: Client<S>, s: State<S>, step: Step<S>, i: nat, j: nat)
    requires Core(s) && Enabled(c, s, step) && i < |s.place| && j < |s.place| && Sleeps(step)
    ensures Shape(Next(c, s, step)) && PassedOk(Next(c, s, step), i, j)
  {
    assert PassedOk(s, i, j) && ThreadOk(s, i) && ThreadOk(s, step.i);
  }

  lemma {:induction false} PassedScanned<S(!new)>(c: Client<S>, s: State<S>, step: Step<S>, i: nat, j: nat)
    requires Core(s) && Enabled(c, s, step) && i < |s.place| && j < |s.place| && Scans(step)
    ensures Shape(Next(c, s, step)) && PassedOk(Next(c, s, step), i, j)
  {
    assert PassedOk(s, i, j) && ThreadOk(s, i) && ThreadOk(s, j) && ThreadOk(s, step.i);
  }

  lemma {:induction false} PassedKept<S(!new)>(c: Client<S>, s: State<S>, step: Step<S>, i: nat, j: nat)
    requires Core(s) && Enabled(c, s, step) && i < |s.place| && j < |s.place|
    ensures Shape(Next(c, s, step)) && PassedOk(Next(c, s, step), i, j)
  {
    if Scans(step) {
      PassedScanned(c, s, step, i, j);
    } else if Sleeps(step) {
      PassedSleeping(c, s, step, i, j);
    } else {
      assert PassedOk(s, i, j);
    }
  }

  lemma {:induction false} NextCore<S(!new)>(c: Client<S>, s: State<S>, step: Step<S>)
    requires Core(s) && Enabled(c, s, step)
    ensures Core(Next(c, s, step))
  {
    var s' := Next(c, s, step);
    assert ThreadOk(s, step.i);
    forall j: nat | j < |s'.place| ensures ThreadOk(s', j) {
      ThreadsKept(c, s, step, j);
    }
    forall i: nat, j: nat | i < |s'.place| && j < |s'.place| ensures PassedOk(s', i, j) {
      PassedKept(c, s, step, i, j);
    }
  }

  // Sleepers and wakers

  /** A change that makes the condition true, with no wakeup before or after it. */
  ghost predicate Unannounced<S>(c: Client<S>, s: State<S>, step: Step<S>) {
    && ((step.Inside? && !c.wakes(s.shared, step.next) && !c.woken(s.shared, step.next)) || step.Aside?)
    && !c.cond(s.shared) && c.cond(step.next)
  }

  /** Thread `i` is on the way to sleep, or asleep, though it need not wait. */
  ghost predicate Waits<S>(c: Client<S>, s: State<S>, i: nat) {
    Shape(s) && i < |s.place| && Sleepish(s, i) && c.cond(s.shared)
  }

  /** A waker that is still coming in `s` is still coming after a step, unless it has
      just looked at `j` or has come to the end. */
  lemma {:induction false} StillComing<S(!new)>(c: Client<S>, s: State<S>, step: Step<S>, u: nat, j: nat)
    requires Core(s) && Enabled(c, s, step) && Coming(s, u, j) && j < |s.place|
    requires Shape(Next(c, s, step))
    requires step.i == u ==> !step.EndScan? && !(step.Wake? && s.place[u].k == j) && !(step.Skip? && u == j)
    ensures Coming(Next(c, s, step), u, j)
  {
    assert ThreadOk(s, u) && ThreadOk(s, step.i);
  }

  /** A sleeper that is still one after a step of its waker has not been passed by. */
  lemma {:induction false} NotPassed<S(!new)>(c: Client<S>, s: State<S>, step: Step<S>, u: nat, j: nat)
    requires Core(s) && Enabled(c, s, step) && Coming(s, u, j) && j < |s.place| && Shape(Next(c, s, step))
    requires Sleepish(s, j) && Sleepish(Next(c, s, step), j)
    ensures step.i == u ==> !step.EndScan? && !(step.Wake? && s.place[u].k == j) && !(step.Skip? && u == j)
  {
    assert ThreadOk(s, u) && ThreadOk(s, j);
  }

  /** The step after which a thread waits though it need not has made the condition true
      while the thread slept: it is the change of a waker, or unannounced. */
  lemma {:induction false} StartsWaiting<S(!new)>(c: Client<S>, s: State<S>, step: Step<S>, j: nat)
    requires Core(s) && Enabled(c, s, step) && Waits(c, Next(c, s, step), j) && !Waits(c, s, j)
    ensures Sleepish(s, j) && (Coming(Next(c, s, step), step.i, j) || Unannounced(c, s, step))
  {
    assert ThreadOk(s, step.i) && ThreadOk(s, j) && PassedOk(s, step.i, j);
  }

  /** A thread that goes on waiting though it need not keeps its wakers. */
  lemma {:induction false} WaitsOn<S(!new)>(c: Client<S>, s: State<S>, step: Step<S>, u: nat, j: nat)
    requires Core(s) && Enabled(c, s, step) && Waits(c, Next(c, s, step), j) && Waits(c, s, j) && Coming(s, u, j)
    ensures Coming(Next(c, s, step), u, j)
  {
    NotPassed(c, s, step, u, j);
    StillComing(c, s, step, u, j);
  }

  lemma {:induction false} NextInv<S(!new)>(c: Client<S>, s: State<S>, step: Step<S>)
    requires Inv(c, s) && Obliging(c) && Enabled(c, s, step)
    ensures Inv(c, Next(c, s, step))
  {
    var s' := Next(c, s, step);
    NextCore(c, s, step);
    forall j: nat | j < |s'.place| ensures SleeperOk(c, s', j) {
      if Waits(c, s, j) && Waits(c, s', j) {
        assert SleeperOk(c, s, j);
        var u: nat :| Coming(s, u, j);
        WaitsOn(c, s, step, u, j);
      } else if Waits(c, s', j) {
        StartsWaiting(c, s, step, j);
      }
    }
  }

  // Runs

  ghost predicate StepAt<S>(c: Client<S>, steps: seq<Step<S>>, states: seq<State<S>>, n: nat)
    requires n < |steps| && |states| == |steps| + 1
  {
    Shape(states[n]) && Enabled(c, states[n], steps[n]) && states[n + 1] == Next(c, states[n], steps[n])
  }

  ghost predicate Run<S>(c: Client<S>, steps: seq<Step<S>>, states: seq<State<S>>) {
    && |states| == |steps| + 1 && Init(states[0])
    && forall n: nat {:trigger StepAt(c, steps, states, n)} :: n < |steps| ==> StepAt(c, steps, states, n)
  }

  /** A run can be prolonged by any step enabled in its last state. */
  lemma {:induction false} RunLonger<S(!new)>(c: Client<S>, steps: seq<Step<S>>, states: seq<State<S>>, step: Step<S>)
    requires Run(c, steps, states)
    requires Shape(states[|steps|]) && Enabled(c, states[|steps|], step)
    ensures Run(c, steps + [step], states + [Next(c, states[|steps|], step)])
  {
    var steps', states' := steps + [step], states + [Next(c, states[|steps|], step)];
    forall n: nat | n < |steps'| ensures StepAt(c, steps', states', n) {
      assert n < |steps| ==> StepAt(c, steps, states, n);
    }
  }

  lemma {:induction false} InitInv<S(!new)>(c: Client<S>, s: State<S>)
    requires Init(s)
    ensures Inv(c, s) && Core(s)
  {
    forall i: nat | i < |s.place| ensures ThreadOk(s, i) && SleeperOk(c, s, i) {
    }
    forall i: nat, j: nat | i < |s.place| && j < |s.place| ensures PassedOk(s, i, j) {
    }
  }

  lemma {:induction false} RunInv<S(!new)>(c: Client<S>, steps: seq<Step<S>>, states: seq<State<S>>, n: nat)
    requires Obliging(c) && Run(c, steps, states) && n < |states|
    ensures Inv(c, states[n])
  {
    if n == 0 {
      InitInv(c, states[0]);
    } else {
      RunInv(c, steps, states, n - 1);
      assert StepAt(c, steps, states, n - 1);
      NextInv(c, states[n - 1], steps[n - 1]);
    }
  }

  lemma {:induction false} RunCore<S(!new)>(c: Client<S>, steps: seq<Step<S>>, states: seq<State<S>>, n: nat)
    requires Run(c, steps, states) && n < |states|
    ensures Core(states[n])
  {
    if n == 0 {
      InitInv(c, states[0]);
    } else {
      RunCore(c, steps, states, n - 1);
      assert StepAt(c, steps, states, n - 1);
      NextCore(c, states[n - 1], steps[n - 1]);
    }
  }

  /** Step `m` made the condition true, unannounced, while thread `i` slept; from then to
      state `n` nobody has woken thread `i`, and the condition has stayed true. */
  ghost predicate LeftBehind<S>(c: Client<S>, steps: seq<Step<S>>, states: seq<State<S>>, m: nat, n: nat, i: nat) {
    && m < n < |states| && m < |steps| && Unannounced(c, states[m], steps[m])
    && Shape(states[m]) && i < |states[m].place| && Sleepish(states[m], i)
    && forall k :: m < k <= n ==> Waits(c, states[k], i)
  }

  /** Whoever waits though it need not has a waker coming, or has been left behind. */
  lemma {:induction false} WaitsBecause<S(!new)>(c: Client<S>, steps: seq<Step<S>>, states: seq<State<S>>, n: nat,
      i: nat)
    requires Run(c, steps, states) && n < |states| && Waits(c, states[n], i)
    ensures (exists u: nat :: Coming(states[n], u, i)) || (exists m: nat :: LeftBehind(c, steps, states, m, n, i))
  {
    if n > 0 {
      var k := n - 1;
      var s, step := states[k], steps[k];
      assert StepAt(c, steps, states, k);
      RunCore(c, steps, states, k);
      if Waits(c, s, i) {
        WaitsBecause(c, steps, states, k, i);
        if m: nat :| LeftBehind(c, steps, states, m, k, i) {
          assert LeftBehind(c, steps, states, m, n, i);
        } else {
          var u: nat :| Coming(s, u, i);
          WaitsOn(c, s, step, u, i);
        }
      } else {
        StartsWaiting(c, s, step, i);
        assert Unannounced(c, s, step) ==> LeftBehind(c, steps, states, k, n, i);
      }
    }
  }

  /** The lock is free and nobody has a wakeup to make. */
  ghost predicate Quiet<S>(s: State<S>) {
    Shape(s) && s.lock == NOBODY && forall u :: 0 <= u < |s.due| ==> !s.due[u]
  }

  /** A lost wakeup: a thread sleeps though it need not, and nobody is about to wake it. */
  ghost predicate Lost<S>(c: Client<S>, s: State<S>, i: nat) {
    Quiet(s) && i < |s.place| && c.cond(s.shared) && (s.asleep[i] || s.place[i].Committed?)
  }

  /** In every run of every client, a wakeup is lost exactly if an unannounced change has
      left the sleeper behind. */
  lemma {:induction false} LostExactly<S(!new)>(c: Client<S>, steps: seq<Step<S>>, states: seq<State<S>>, n: nat,
      i: nat)
    requires Run(c, steps, states) && n < |states| && Quiet(states[n])
    ensures Lost(c, states[n], i) <==> exists m: nat :: LeftBehind(c, steps, states, m, n, i)
  {
    RunCore(c, steps, states, n);
    if Lost(c, states[n], i) {
      WaitsBecause(c, steps, states, n, i);
    }
    if exists m: nat :: LeftBehind(c, steps, states, m, n, i) {
      assert Waits(c, states[n], i);
      assert ThreadOk(states[n], i);
    }
  }

  /** After changing the shared state thread `u` can release the lock, and then thread `i` is
      lost. */
  ghost predicate LeavesLost<S>(c: Client<S>, s: State<S>, u: nat, next: S, i: nat)
    requires Shape(s) && Enabled(c, s, Inside(u, next))
  {
    var s' := Next(c, s, Inside(u, next));
    Enabled(c, s', Release(u)) && Lost(c, Next(c, s', Release(u)), i)
  }

  /** A thread that changes the shared state while another sleeps, and owes no wakeup yet,
      can release the lock and leave the sleeper lost exactly if the change is unannounced. */
  lemma {:induction false} ReleaseLoses<S(!new)>(c: Client<S>, steps: seq<Step<S>>, states: seq<State<S>>, u: nat,
      next: S, i: nat)
    requires Run(c, steps, states)
    requires Shape(states[|steps|]) && Enabled(c, states[|steps|], Inside(u, next))
    requires var s := states[|steps|];
      i < |s.place| && s.asleep[i] && !c.cond(s.shared) && forall v :: 0 <= v < |s.due| ==> !s.due[v]
    ensures LeavesLost(c, states[|steps|], u, next, i) <==> Unannounced(c, states[|steps|], Inside(u, next))
  {
    RunCore(c, steps, states, |steps|);
    var s := states[|steps|];
    assert ThreadOk(s, u) && ThreadOk(s, i) && PassedOk(s, u, i);
  }

  /** No lost wakeup: in every state of every run, while the lock is free and no waker
      is still on its way, no thread sleeps although its condition holds. */
  lemma {:induction false} NoLostWakeup<S(!new)>(c: Client<S>, steps: seq<Step<S>>, states: seq<State<S>>, n: nat,
      i: nat)
    requires Obliging(c) && Run(c, steps, states) && n < |states| && i < |states[n].place|
    requires states[n].lock == NOBODY && c.cond(states[n].shared)
    ensures Shape(states[n])
    ensures states[n].asleep[i] || states[n].place[i].Committed? ==>
      exists u: nat ::
        u < |states[n].place| && states[n].due[u] && (states[n].place[u].Out? || states[n].place[u].OutLocked?)
  {
    RunInv(c, steps, states, n);
    var s := states[n];
    assert SleeperOk(c, s, i);
    if s.asleep[i] || s.place[i].Committed? {
      var u: nat :| Coming(s, u, i);
      assert ThreadOk(s, u);
    }
  }

  /** If the condition changes only under the lock, a waker on its way holds the lock. */
  ghost predicate UnderLock<S(!new)>(c: Client<S>) {
    forall s, t {:trigger c.outside(s, t)} :: !c.outside(s, t)
  }

  lemma {:induction false} WakersInside<S(!new)>(c: Client<S>, steps: seq<Step<S>>, states: seq<State<S>>, n: nat,
      u: nat)
    requires Obliging(c) && UnderLock(c) && Run(c, steps, states) && n < |states| && u < |states[n].place|
    ensures Shape(states[n]) && (states[n].due[u] ==> HoldsLock(states[n].place[u]))
  {
    RunInv(c, steps, states, n);
    if n > 0 {
      assert StepAt(c, steps, states, n - 1);
      RunInv(c, steps, states, n - 1);
      WakersInside(c, steps, states, n - 1, u);
      assert ThreadOk(states[n - 1], u);
    }
  }

  /** Then, whenever the lock is free and the condition holds, nobody sleeps. */
  lemma {:induction false} NobodySleeps<S(!new)>(c: Client<S>, steps: seq<Step<S>>, states: seq<State<S>>, n: nat,
      i: nat)
    requires Obliging(c) && UnderLock(c) && Run(c, steps, states) && n < |states| && i < |states[n].place|
    requires states[n].lock == NOBODY && c.cond(states[n].shared)
    ensures Shape(states[n]) && !states[n].asleep[i] && !states[n].place[i].Committed?
  {
    NoLostWakeup(c, steps, states, n, i);
    var s := states[n];
    forall u: nat | u < |s.place| ensures !(s.due[u] && (s.place[u].Out? || s.place[u].OutLocked?)) {
      WakersInside(c, steps, states, n, u);
    }
  }
}
