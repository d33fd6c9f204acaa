/** Buffer cache, log and disk as one system of atomic steps, in every
    interleaving of readers, writers inside transactions, the committer, buffer
    recycling and crashes (also crashes during recovery).  A step is what the code
    does under one spin lock, or under the sleep lock of the buffers it touches,
    and contains at most one block write. */
module StorageSteps {
  import opened Common
  import opened Blocks
  import opened LogDisk

  /** A cached block: `refcnt` in the kernel is `users` plus the log's pin. */
  datatype Entry = Entry(valid: bool, users: nat, pinned: bool, held: bool, data: Block)

  datatype Phase =
    | Idle
    | Logging(done: nat)       // write_log has copied `done` blocks
    | Installing(done: nat)    // the header is on disk, install_trans has copied `done`
    | Recovering(done: nat)    // likewise, after a crash

  datatype State = State(
    disk: Disk,
    cache: map<nat, Entry>,
    lh: seq<nat>,
    ops: map<nat, set<nat>>,   // outstanding transactions and the blocks each holds for writing
    phase: Phase,
    listed: seq<nat>,          // the list in the header block on disk
    logical: Disk,             // home blocks: contents most recently passed to log_write
    committed: Disk,           // home blocks: contents as of the last header write
    strays: set<nat>)          // blocks whose buffer was changed and released without a log_write

  // What a reader gets

  ghost function View(s: State, b: nat): Block
    requires b < |s.disk|
  {
    if b in s.cache && s.cache[b].valid then s.cache[b].data else s.disk[b]
  }

  ghost predicate BeingWritten(s: State, b: nat) {
    exists op :: op in s.ops && b in s.ops[op]
  }

  /** Home blocks whose copy on disk is older than the logical contents. */
  ghost function Behind(s: State): seq<nat> {
    match s.phase
    case Installing(k) => if k <= |s.lh| then s.lh[k..] else []
    case Recovering(k) => if k <= |s.lh| then s.lh[k..] else []
    case _ => s.lh
  }

  // Steps

  datatype Step =
    | Get(b: nat)                          // bget, critical section
    | Lock(b: nat)                         // acquiresleep by a reader
    | Fill(b: nat)                         // bread of an invalid buffer
    | Unlock(b: nat)                       // releasesleep in brelse, by a reader
    | Drop(b: nat)                         // the rest of brelse: any reference but the lock holder's
    | Recycle(b: nat)                      // bget takes an unreferenced buffer for another block
    | Begin(op: nat)
    | LockForWrite(op: nat, b: nat)
    | Modify(op: nat, b: nat, data: Block)
    | LogWrite(op: nat, b: nat)
    | Release(op: nat, b: nat)             // releasesleep in brelse, by a writer
    | Abandon(op: nat, b: nat)             // the same, by a writer whose last change is not logged
    | End(op: nat)
    | CopyToSlot
    | WriteHeader
    | Install
    | Erase
    | Crash

  ghost predicate Home(l: Layout, b: nat) {
    b < l.blocks && !InLog(l, b)
  }

  ghost predicate Next(l: Layout, s: State, t: State, step: Step)
    requires WellLaid(l) && |s.disk| == l.blocks && |s.logical| == l.blocks
  {
    match step
    case Get(b) =>
      && Home(l, b) && !s.phase.Recovering?
      && t == s.(cache := s.cache[b :=
           if b in s.cache then s.cache[b].(users := s.cache[b].users + 1)
           else Entry(false, 1, false, false, Zeroed())])
    case Lock(b) =>
      && Home(l, b) && b in s.cache && !s.cache[b].held && s.cache[b].users > 0 && !s.phase.Recovering?
      && t == s.(cache := s.cache[b := s.cache[b].(held := true)])
    case Fill(b) =>
      && Home(l, b) && b in s.cache && s.cache[b].held && !s.cache[b].valid && !s.phase.Recovering?
      && t == s.(cache := s.cache[b := s.cache[b].(valid := true, data := s.disk[b])])
    case Unlock(b) =>
      && Home(l, b) && b in s.cache && s.cache[b].held && !BeingWritten(s, b)
      && t == s.(cache := s.cache[b := s.cache[b].(held := false)])
    case Drop(b) =>
      && Home(l, b) && b in s.cache && s.cache[b].users > (if s.cache[b].held then 1 else 0)
      && t == s.(cache := s.cache[b := s.cache[b].(users := s.cache[b].users - 1)])
    case Recycle(b) =>
      && b in s.cache && s.cache[b].users == 0 && !s.cache[b].pinned
      && t == s.(cache := s.cache - {b}, strays := s.strays - {b})
    case Begin(op) =>
      && op !in s.ops && s.phase == Idle
      && |s.lh| + (|s.ops| + 1) * MAXOPBLOCKS <= LOGSIZE
      && t == s.(ops := s.ops[op := {}])
    case LockForWrite(op, b) =>
      && op in s.ops && Home(l, b) && b in s.cache
      && s.cache[b].held && s.cache[b].valid && !BeingWritten(s, b)
      && t == s.(ops := s.ops[op := s.ops[op] + {b}])
    case Modify(op, b, data) =>
      && op in s.ops && b in s.ops[op] && b in s.cache
      && t == s.(cache := s.cache[b := s.cache[b].(data := data)])
    case LogWrite(op, b) =>
      && op in s.ops && b in s.ops[op] && b in s.cache && Home(l, b)
      && |s.lh| < LOGSIZE && |s.lh| < l.size - 1
      && t == s.(lh := if b in s.lh then s.lh else s.lh + [b],
                 cache := s.cache[b := s.cache[b].(pinned := true)],
                 logical := s.logical[b := s.cache[b].data],
                 strays := s.strays - {b})
    case Release(op, b) =>
      && op in s.ops && b in s.ops[op] && b in s.cache && Home(l, b)
      && s.cache[b].data == s.logical[b]       // the last change has been logged
      && t == s.(ops := s.ops[op := s.ops[op] - {b}],
                 cache := s.cache[b := s.cache[b].(held := false)],
                 strays := s.strays - {b})
    case Abandon(op, b) =>
      && op in s.ops && b in s.ops[op] && b in s.cache && Home(l, b)
      && t == s.(ops := s.ops[op := s.ops[op] - {b}],
                 cache := s.cache[b := s.cache[b].(held := false)],
                 // the commit of a listed block takes the buffer as it is
                 logical := if b in s.lh then s.logical[b := s.cache[b].data] else s.logical,
                 strays := if b in s.lh then s.strays else s.strays + {b})
    case End(op) =>
      && op in s.ops && s.ops[op] == {}
      && t == s.(ops := s.ops - {op},
                 phase := if s.ops.Keys == {op} && s.lh != [] then Logging(0) else s.phase)
    case CopyToSlot =>
      && s.phase.Logging? && s.phase.done < |s.lh| < l.size
      && var b := s.lh[s.phase.done]; var slot := l.start + s.phase.done + 1;
      && b in s.cache && !s.cache[b].held && b < l.blocks
      && t == s.(disk := s.disk[slot := View(s, b)],
                 cache := s.cache[slot := Entry(true, 0, false, false, View(s, b))],
                 phase := Logging(s.phase.done + 1))
    case WriteHeader =>
      && s.phase.Logging? && s.phase.done == |s.lh| && Loggable(l, s.lh)
      && var h := SetNumbers(View(s, l.start), s.lh, |s.lh|);
      && t == s.(disk := s.disk[l.start := h],
                 cache := s.cache[l.start := Entry(true, 0, false, false, h)],
                 phase := Installing(0),
                 listed := s.lh,
                 committed := s.logical)
    case Install =>
      && (s.phase.Installing? || s.phase.Recovering?) && s.phase.done < |s.lh| < l.size
      && var b := s.lh[s.phase.done]; var data := View(s, l.start + s.phase.done + 1);
      && Home(l, b) && (b in s.cache ==> !s.cache[b].held)
      && t == s.(disk := s.disk[b := data],
                 cache := s.cache[b :=
                   if b in s.cache then s.cache[b].(valid := true, pinned := false, data := data)
                   else Entry(true, 0, false, false, data)],
                 phase := if s.phase.Installing? then Installing(s.phase.done + 1) else Recovering(s.phase.done + 1))
    case Erase =>
      && (s.phase.Installing? || s.phase.Recovering?) && s.phase.done == |s.lh|
      && var h := SetNumbers(View(s, l.start), [], 0);
      && t == s.(disk := s.disk[l.start := h],
                 cache := s.cache[l.start := Entry(true, 0, false, false, h)],
                 lh := [], listed := [], phase := Idle)
    case Crash =>
      && HeaderReadable(s.disk[l.start])
      && t == s.(cache := map[], ops := map[], lh := Numbers(s.disk[l.start]),
                 phase := Recovering(0), logical := s.committed, strays := {})
  }

  // Invariant

  ghost predicate NoRepeats(lh: seq<nat>) {
    forall i, j :: 0 <= i < j < |lh| ==> lh[i] != lh[j]
  }

  /** The disk alone determines `committed`: each block the header lists has its
      committed contents in its slot, every other home block in place. */
  ghost predicate OnDisk(l: Layout, d: Disk, committed: Disk, listed: seq<nat>) {
    && WellLaid(l) && |d| == l.blocks && |committed| == l.blocks
    && HeaderReadable(d[l.start]) && Numbers(d[l.start]) == listed
    && Loggable(l, listed) && NoRepeats(listed)
    && SlotsHold(l, d, committed, listed)
    && forall b: nat :: Home(l, b) && b !in listed ==> d[b] == committed[b]
  }

  ghost predicate EntryOk(l: Layout, s: State, b: nat)
    requires b in s.cache && |s.disk| == l.blocks && |s.logical| == l.blocks
  {
    var e := s.cache[b];
    && b < l.blocks
    && (e.held ==> e.users > 0)
    && (e.pinned ==> e.valid && Home(l, b) && b in Behind(s))
    && (InLog(l, b) ==> !e.held && e.users == 0 && (e.valid ==> e.data == s.disk[b]))
    && (!InLog(l, b) && e.valid && !BeingWritten(s, b) && b !in s.strays ==> e.data == s.logical[b])
  }

  ghost predicate BlockOk(l: Layout, s: State, b: nat)
    requires b < l.blocks && |s.disk| == l.blocks && |s.logical| == l.blocks
  {
    if b in Behind(s)
    then s.phase.Recovering? || (b in s.cache && s.cache[b].pinned)
    else s.disk[b] == s.logical[b]
  }

  ghost predicate CacheOk(l: Layout, s: State) {
    && |s.disk| == l.blocks && |s.logical| == l.blocks
    && (forall b {:trigger EntryOk(l, s, b)} :: b in s.cache ==> EntryOk(l, s, b))
    && (forall b {:trigger BlockOk(l, s, b)} :: 0 <= b < l.blocks && !InLog(l, b) ==> BlockOk(l, s, b))
  }

  ghost predicate OpOk(l: Layout, s: State, op: nat, b: nat)
    requires op in s.ops
  {
    b in s.ops[op] ==>
      && Home(l, b) && b in s.cache && s.cache[b].held && s.cache[b].valid
      && forall other :: other in s.ops && b in s.ops[other] ==> other == op
  }

  /** A stray block is cached, and not in the transaction. */
  ghost predicate StrayOk(l: Layout, s: State, b: nat) {
    Home(l, b) && b in s.cache && s.cache[b].valid && !s.cache[b].pinned && b !in s.lh
  }

  ghost predicate StraysOk(l: Layout, s: State) {
    forall b {:trigger StrayOk(l, s, b)} :: b in s.strays ==> StrayOk(l, s, b)
  }

  ghost predicate PhaseOk(l: Layout, s: State)
    requires WellLaid(l) && |s.disk| == l.blocks && |s.logical| == l.blocks && |s.committed| == l.blocks
    requires Loggable(l, s.lh)
  {
    match s.phase
    case Idle => s.listed == []
    case Logging(k) =>
      && s.ops == map[] && s.listed == [] && k <= |s.lh|
      && forall i :: 0 <= i < k ==> SlotHolds(l, s.disk, s.logical, s.lh, i)
    case Installing(k) =>
      && s.ops == map[] && s.listed == s.lh && k <= |s.lh| && SameHome(l, s.committed, s.logical)
    case Recovering(k) =>
      && s.ops == map[] && s.listed == s.lh && k <= |s.lh| && SameHome(l, s.committed, s.logical)
  }

  ghost predicate Inv(l: Layout, s: State) {
    && WellLaid(l) && |s.logical| == l.blocks
    && Loggable(l, s.lh) && NoRepeats(s.lh)
    && OnDisk(l, s.disk, s.committed, s.listed)
    && CacheOk(l, s)
    && (forall op, b {:trigger OpOk(l, s, op, b)} :: op in s.ops && b in s.ops[op] ==> OpOk(l, s, op, b))
    && PhaseOk(l, s) && StraysOk(l, s)
  }

  /** A machine that has just booted from a disk whose header is empty. */
  ghost predicate Init(l: Layout, s: State) {
    && WellLaid(l) && |s.disk| == l.blocks
    && GetWord(s.disk[l.start], 0) == 0
    && s == State(s.disk, map[], [], map[], Idle, [], s.disk, s.disk, {})
  }

  lemma {:induction false} InitInv(l: Layout, s: State)
    requires Init(l, s)
    ensures Inv(l, s)
  {
    assert Numbers(s.disk[l.start]) == [];
  }

  /** Whatever the phase, crashing now recovers to the committed contents. */
  lemma {:induction false} InvIsCrashSafe(l: Layout, s: State)
    requires Inv(l, s)
    ensures CrashesTo(l, s.disk, s.committed)
  {
    var lh := s.listed;
    CrashesToSlots(l, s.disk, s.disk, s.committed, lh);
    forall b | 0 <= b < l.blocks && !InLog(l, b) ensures Recovered(l, s.disk)[b] == s.committed[b] {
      assert Home(l, b);
      assert Overlay(s.disk, s.committed, lh)[b] == s.committed[b];
    }
  }

  // Every step keeps the invariant

  /** Steps that change one cached home block without touching disk, log or
      transactions. */
  lemma {:induction false} CacheStepInv(l: Layout, s: State, t: State, b: nat, e: Entry)
    requires Inv(l, s) && Home(l, b) && t == s.(cache := s.cache[b := e])
    requires e.held ==> e.users > 0
    requires b in s.cache ==> e.pinned == s.cache[b].pinned && (s.cache[b].valid ==> e.valid)
    requires b !in s.cache ==> !e.pinned
    requires e.valid && !BeingWritten(s, b) && b !in s.strays ==> e.data == s.logical[b]
    requires BeingWritten(s, b) ==> e.held && e.valid
    ensures Inv(l, t)
  {
    forall c | c in t.cache ensures EntryOk(l, t, c) {
      assert c in s.cache ==> EntryOk(l, s, c);
      assert BeingWritten(t, c) == BeingWritten(s, c);
    }
    forall c | 0 <= c < l.blocks && !InLog(l, c) ensures BlockOk(l, t, c) {
      assert BlockOk(l, s, c);
    }
    forall op, c | op in t.ops && c in t.ops[op] ensures OpOk(l, t, op, c) {
      assert OpOk(l, s, op, c);
    }
    forall c | c in t.strays ensures StrayOk(l, t, c) {
      assert c in s.strays ==> StrayOk(l, s, c);
    }
  }

  lemma {:induction false} WriterHolds(l: Layout, s: State, b: nat)
    requires Inv(l, s)
    ensures BeingWritten(s, b) ==> b in s.cache && s.cache[b].held && s.cache[b].valid && Home(l, b)
  {
    if op :| op in s.ops && b in s.ops[op] {
      assert OpOk(l, s, op, b);
    }
  }

  lemma {:induction false} GetInv(l: Layout, s: State, t: State, b: nat)
    requires Inv(l, s) && Next(l, s, t, Get(b))
    ensures Inv(l, t)
  {
    WriterHolds(l, s, b);
    assert b in s.cache ==> EntryOk(l, s, b);
    CacheStepInv(l, s, t, b, t.cache[b]);
  }

  lemma {:induction false} LockInv(l: Layout, s: State, t: State, b: nat)
    requires Inv(l, s) && Next(l, s, t, Lock(b))
    ensures Inv(l, t)
  {
    WriterHolds(l, s, b);
    assert EntryOk(l, s, b);
    CacheStepInv(l, s, t, b, t.cache[b]);
  }

  lemma {:induction false} FillInv(l: Layout, s: State, t: State, b: nat)
    requires Inv(l, s) && Next(l, s, t, Fill(b))
    ensures Inv(l, t)
  {
    WriterHolds(l, s, b);
    assert EntryOk(l, s, b) && BlockOk(l, s, b);
    CacheStepInv(l, s, t, b, t.cache[b]);
  }

  lemma {:induction false} UnlockInv(l: Layout, s: State, t: State, b: nat)
    requires Inv(l, s) && Next(l, s, t, Unlock(b))
    ensures Inv(l, t)
  {
    assert EntryOk(l, s, b);
    CacheStepInv(l, s, t, b, t.cache[b]);
  }

  lemma {:induction false} DropInv(l: Layout, s: State, t: State, b: nat)
    requires Inv(l, s) && Next(l, s, t, Drop(b))
    ensures Inv(l, t)
  {
    WriterHolds(l, s, b);
    assert EntryOk(l, s, b);
    CacheStepInv(l, s, t, b, t.cache[b]);
  }

  lemma {:induction false} RecycleInv(l: Layout, s: State, t: State, b: nat)
    requires Inv(l, s) && Next(l, s, t, Recycle(b))
    ensures Inv(l, t)
  {
    assert EntryOk(l, s, b);
    forall c | c in t.cache ensures EntryOk(l, t, c) {
      assert EntryOk(l, s, c);
      assert BeingWritten(t, c) == BeingWritten(s, c);
    }
    forall c | 0 <= c < l.blocks && !InLog(l, c) ensures BlockOk(l, t, c) {
      assert BlockOk(l, s, c);
    }
    forall op, c | op in t.ops && c in t.ops[op] ensures OpOk(l, t, op, c) {
      assert OpOk(l, s, op, c);
    }
    forall c | c in t.strays ensures StrayOk(l, t, c) {
      assert c in s.strays ==> StrayOk(l, s, c);
    }
  }

  lemma {:induction false} BeginEndInv(l: Layout, s: State, t: State, step: Step)
    requires Inv(l, s) && (step.Begin? || step.End?) && Next(l, s, t, step)
    ensures Inv(l, t)
  {
    forall c ensures BeingWritten(t, c) == BeingWritten(s, c) {
      if op :| op in s.ops && c in s.ops[op] {
        assert op in t.ops && c in t.ops[op];
      }
    }
    forall c | c in t.cache ensures EntryOk(l, t, c) {
      assert EntryOk(l, s, c);
    }
    forall c | 0 <= c < l.blocks && !InLog(l, c) ensures BlockOk(l, t, c) {
      assert BlockOk(l, s, c);
    }
    forall op, c | op in t.ops && c in t.ops[op] ensures OpOk(l, t, op, c) {
      assert OpOk(l, s, op, c);
    }
    forall c | c in t.strays ensures StrayOk(l, t, c) {
      assert c in s.strays ==> StrayOk(l, s, c);
    }
  }

  lemma {:induction false} LockForWriteInv(l: Layout, s: State, t: State, op: nat, b: nat)
    requires Inv(l, s) && Next(l, s, t, LockForWrite(op, b))
    ensures Inv(l, t)
  {
    forall c | BeingWritten(s, c) ensures BeingWritten(t, c) {
      var o :| o in s.ops && c in s.ops[o];
      assert o in t.ops && c in t.ops[o];
    }
    forall c | c in t.cache ensures EntryOk(l, t, c) {
      assert EntryOk(l, s, c);
    }
    forall c | 0 <= c < l.blocks && !InLog(l, c) ensures BlockOk(l, t, c) {
      assert BlockOk(l, s, c);
    }
    forall o, c | o in t.ops && c in t.ops[o] ensures OpOk(l, t, o, c) {
      if c in s.ops[o] {
        assert OpOk(l, s, o, c);
      }
    }
    forall c | c in t.strays ensures StrayOk(l, t, c) {
      assert c in s.strays ==> StrayOk(l, s, c);
    }
  }

  lemma {:induction false} ModifyInv(l: Layout, s: State, t: State, op: nat, b: nat, data: Block)
    requires Inv(l, s) && Next(l, s, t, Modify(op, b, data))
    ensures Inv(l, t)
  {
    assert OpOk(l, s, op, b) && EntryOk(l, s, b) && BeingWritten(s, b);
    CacheStepInv(l, s, t, b, t.cache[b]);
  }

  /** Membership in the list after log_write's absorption. */
  lemma {:induction false} AppendOnce(lh: seq<nat>, b: nat)
    requires NoRepeats(lh)
    ensures var r := if b in lh then lh else lh + [b];
      NoRepeats(r) && forall c :: c in r <==> c == b || c in lh
  {
  }

  lemma {:induction false} LogWriteInv(l: Layout, s: State, t: State, op: nat, b: nat)
    requires Inv(l, s) && Next(l, s, t, LogWrite(op, b))
    ensures Inv(l, t)
  {
    assert OpOk(l, s, op, b) && EntryOk(l, s, b);
    AppendOnce(s.lh, b);
    assert s.phase == Idle;
    forall c | c in t.cache ensures EntryOk(l, t, c) {
      assert EntryOk(l, s, c);
      assert BeingWritten(t, c) == BeingWritten(s, c);
    }
    forall c | 0 <= c < l.blocks && !InLog(l, c) ensures BlockOk(l, t, c) {
      assert BlockOk(l, s, c);
    }
    forall o, c | o in t.ops && c in t.ops[o] ensures OpOk(l, t, o, c) {
      assert OpOk(l, s, o, c);
    }
    forall c | c in t.strays ensures StrayOk(l, t, c) {
      assert c in s.strays ==> StrayOk(l, s, c);
    }
  }

  lemma {:induction false} ReleaseInv(l: Layout, s: State, t: State, op: nat, b: nat)
    requires Inv(l, s) && Next(l, s, t, Release(op, b))
    ensures Inv(l, t)
  {
    assert OpOk(l, s, op, b) && EntryOk(l, s, b);
    forall c | BeingWritten(s, c) && c != b ensures BeingWritten(t, c) {
      var o :| o in s.ops && c in s.ops[o];
      assert o in t.ops && c in t.ops[o];
    }
    forall c | c in t.cache ensures EntryOk(l, t, c) {
      assert EntryOk(l, s, c);
    }
    forall c | 0 <= c < l.blocks && !InLog(l, c) ensures BlockOk(l, t, c) {
      assert BlockOk(l, s, c);
    }
    forall o, c | o in t.ops && c in t.ops[o] ensures OpOk(l, t, o, c) {
      assert c in s.ops[o] && OpOk(l, s, o, c);
    }
    forall c | c in t.strays ensures StrayOk(l, t, c) {
      assert c in s.strays ==> StrayOk(l, s, c);
    }
  }

  lemma {:induction false} AbandonInv(l: Layout, s: State, t: State, op: nat, b: nat)
    requires Inv(l, s) && Next(l, s, t, Abandon(op, b))
    ensures Inv(l, t)
  {
    assert OpOk(l, s, op, b) && EntryOk(l, s, b) && BlockOk(l, s, b);
    assert s.phase == Idle;
    forall c | BeingWritten(s, c) && c != b ensures BeingWritten(t, c) {
      var o :| o in s.ops && c in s.ops[o];
      assert o in t.ops && c in t.ops[o];
    }
    forall c | c in t.cache ensures EntryOk(l, t, c) {
      assert EntryOk(l, s, c);
    }
    forall c | 0 <= c < l.blocks && !InLog(l, c) ensures BlockOk(l, t, c) {
      assert BlockOk(l, s, c);
    }
    forall o, c | o in t.ops && c in t.ops[o] ensures OpOk(l, t, o, c) {
      assert c in s.ops[o] && OpOk(l, s, o, c);
    }
    forall c | c in t.strays ensures StrayOk(l, t, c) {
      assert c in s.strays ==> StrayOk(l, s, c);
    }
  }

  /** Writing a log block and caching it leaves home blocks and their buffers alone. */
  lemma {:induction false} LogBlockCache(l: Layout, s: State, t: State, b: nat, data: Block)
    requires CacheOk(l, s) && s.ops == map[] && t.ops == map[] && b < l.blocks && InLog(l, b)
    requires t.disk == s.disk[b := data] && t.cache == s.cache[b := Entry(true, 0, false, false, data)]
    requires t.logical == s.logical && Behind(t) == Behind(s) && t.phase.Recovering? == s.phase.Recovering?
    requires t.strays == s.strays && t.lh == s.lh && StraysOk(l, s)
    ensures CacheOk(l, t) && StraysOk(l, t)
  {
    forall c | c in t.cache ensures EntryOk(l, t, c) {
      assert c in s.cache ==> EntryOk(l, s, c);
      assert !BeingWritten(t, c) && !BeingWritten(s, c);
    }
    forall c | 0 <= c < l.blocks && !InLog(l, c) ensures BlockOk(l, t, c) {
      assert BlockOk(l, s, c);
    }
    forall c | c in t.strays ensures StrayOk(l, t, c) {
      assert c in s.strays ==> StrayOk(l, s, c);
    }
  }

  lemma {:induction false} CopyToSlotInv(l: Layout, s: State, t: State)
    requires Inv(l, s) && Next(l, s, t, CopyToSlot)
    ensures Inv(l, t)
  {
    var k := s.phase.done;
    var b := s.lh[k];
    assert EntryOk(l, s, b) && BlockOk(l, s, b);
    assert !BeingWritten(s, b);
    assert b in s.strays ==> StrayOk(l, s, b);
    assert View(s, b) == s.logical[b];
    forall i | 0 <= i < k + 1 ensures SlotHolds(l, t.disk, t.logical, t.lh, i) {
      assert i < k ==> SlotHolds(l, s.disk, s.logical, s.lh, i);
    }
    LogBlockCache(l, s, t, l.start + k + 1, View(s, b));
  }

  lemma {:induction false} HeaderIsCached(l: Layout, s: State)
    requires Inv(l, s)
    ensures View(s, l.start) == s.disk[l.start]
  {
    if l.start in s.cache {
      assert EntryOk(l, s, l.start);
    }
  }

  lemma {:induction false} HeaderOnDisk(l: Layout, d: Disk, logical: Disk, lh: seq<nat>)
    requires WellLaid(l) && |d| == l.blocks && |logical| == l.blocks && Loggable(l, lh) && NoRepeats(lh)
    requires SlotsHold(l, d, logical, lh)
    requires forall c: nat :: Home(l, c) && c !in lh ==> d[c] == logical[c]
    ensures var e := d[l.start := SetNumbers(d[l.start], lh, |lh|)];
      OnDisk(l, e, logical, lh)
  {
    HeaderRoundTrip(d[l.start], lh);
    var e := d[l.start := SetNumbers(d[l.start], lh, |lh|)];
    forall i | 0 <= i < |lh| ensures SlotHolds(l, e, logical, lh, i) {
      assert SlotHolds(l, d, logical, lh, i);
    }
  }

  lemma {:induction false} WriteHeaderInv(l: Layout, s: State, t: State)
    requires Inv(l, s) && Next(l, s, t, WriteHeader)
    ensures Inv(l, t)
  {
    HeaderIsCached(l, s);
    assert s.lh[0..] == s.lh;
    forall c: nat | Home(l, c) && c !in s.lh ensures s.disk[c] == s.logical[c] {
      assert BlockOk(l, s, c);
    }
    HeaderOnDisk(l, s.disk, s.logical, s.lh);
    LogBlockCache(l, s, t, l.start, t.disk[l.start]);
  }

  lemma {:induction false} InstallOnDisk(l: Layout, d: Disk, committed: Disk, lh: seq<nat>, k: nat)
    requires OnDisk(l, d, committed, lh) && k < |lh|
    ensures d[l.start + k + 1] == committed[lh[k]]
    ensures OnDisk(l, d[lh[k] := d[l.start + k + 1]], committed, lh)
  {
    var e := d[lh[k] := d[l.start + k + 1]];
    assert SlotHolds(l, d, committed, lh, k);
    forall i | 0 <= i < |lh| ensures SlotHolds(l, e, committed, lh, i) {
      assert SlotHolds(l, d, committed, lh, i);
    }
  }

  lemma {:induction false} NextBehind(lh: seq<nat>, k: nat)
    requires NoRepeats(lh) && k < |lh|
    ensures forall c :: c in lh[k..] <==> c == lh[k] || c in lh[k + 1..]
    ensures lh[k] !in lh[k + 1..]
  {
    assert lh[k..] == [lh[k]] + lh[k + 1..];
  }

  lemma {:induction false} SlotCached(l: Layout, s: State, slot: nat)
    requires CacheOk(l, s) && slot < l.blocks && InLog(l, slot)
    ensures View(s, slot) == s.disk[slot]
  {
    if slot in s.cache {
      assert EntryOk(l, s, slot);
    }
  }

  lemma {:induction false} SlotData(l: Layout, d: Disk, committed: Disk, logical: Disk, lh: seq<nat>, k: nat)
    requires WellLaid(l) && |d| == l.blocks && |committed| == l.blocks && |logical| == l.blocks
    requires Loggable(l, lh) && k < |lh| && SlotHolds(l, d, committed, lh, k) && SameHome(l, committed, logical)
    ensures d[l.start + k + 1] == logical[lh[k]]
  {
  }

  lemma {:induction false} InstalledData(l: Layout, s: State)
    requires Inv(l, s) && (s.phase.Installing? || s.phase.Recovering?) && s.phase.done < |s.lh|
    ensures View(s, l.start + s.phase.done + 1) == s.disk[l.start + s.phase.done + 1]
         == s.logical[s.lh[s.phase.done]]
  {
    var k := s.phase.done;
    assert SlotHolds(l, s.disk, s.committed, s.lh, k);
    SlotData(l, s.disk, s.committed, s.logical, s.lh, k);
    SlotCached(l, s, l.start + k + 1);
  }

  lemma {:induction false} InstallCache(l: Layout, s: State, t: State, k: nat, e: Entry)
    requires WellLaid(l) && Loggable(l, s.lh) && NoRepeats(s.lh) && CacheOk(l, s) && s.ops == map[]
    requires (s.phase == Installing(k) && t.phase == Installing(k + 1)) ||
             (s.phase == Recovering(k) && t.phase == Recovering(k + 1))
    requires k < |s.lh| && e.valid && !e.pinned && !e.held && e.data == s.logical[s.lh[k]]
    requires t == s.(disk := s.disk[s.lh[k] := e.data], cache := s.cache[s.lh[k] := e], phase := t.phase)
    requires StraysOk(l, s)
    ensures CacheOk(l, t) && StraysOk(l, t)
  {
    NextBehind(s.lh, k);
    forall c | c in t.cache ensures EntryOk(l, t, c) {
      assert c in s.cache ==> EntryOk(l, s, c);
      assert !BeingWritten(t, c) && !BeingWritten(s, c);
    }
    forall c | 0 <= c < l.blocks && !InLog(l, c) ensures BlockOk(l, t, c) {
      assert BlockOk(l, s, c);
    }
    forall c | c in t.strays ensures StrayOk(l, t, c) {
      assert c in s.strays ==> StrayOk(l, s, c);
    }
  }

  lemma {:induction false} InstallInv(l: Layout, s: State, t: State)
    requires Inv(l, s) && Next(l, s, t, Install)
    ensures Inv(l, t)
  {
    InstalledData(l, s);
    InstallOnDisk(l, s.disk, s.committed, s.lh, s.phase.done);
    InstallCache(l, s, t, s.phase.done, t.cache[s.lh[s.phase.done]]);
  }

  lemma {:induction false} EraseInv(l: Layout, s: State, t: State)
    requires Inv(l, s) && Next(l, s, t, Erase)
    ensures Inv(l, t)
  {
    HeaderIsCached(l, s);
    NumbersAfterSet(s.disk[l.start], [], 0, 0);
    assert Numbers(t.disk[l.start]) == [];
    assert Behind(s) == [] && Behind(t) == [];
    forall c: nat | Home(l, c) ensures t.disk[c] == t.committed[c] {
      assert BlockOk(l, s, c);
    }
    forall c | c in t.cache ensures EntryOk(l, t, c) {
      assert c in s.cache ==> EntryOk(l, s, c);
      assert BeingWritten(t, c) == BeingWritten(s, c);
    }
    forall c | 0 <= c < l.blocks && !InLog(l, c) ensures BlockOk(l, t, c) {
      assert BlockOk(l, s, c);
    }
    forall c | c in t.strays ensures StrayOk(l, t, c) {
      assert c in s.strays ==> StrayOk(l, s, c);
    }
  }

  lemma {:induction false} CrashInv(l: Layout, s: State, t: State)
    requires Inv(l, s) && Next(l, s, t, Crash)
    ensures Inv(l, t)
  {
    assert t.lh[0..] == t.lh;
    forall c | 0 <= c < l.blocks && !InLog(l, c) ensures BlockOk(l, t, c) {
      assert Home(l, c);
    }
  }

  predicate OfReaders(step: Step) {
    step.Get? || step.Lock? || step.Fill? || step.Unlock? || step.Drop? || step.Recycle?
  }

  predicate OfCommit(step: Step) {
    step.CopyToSlot? || step.WriteHeader? || step.Install? || step.Erase? || step.Crash?
  }

  lemma {:induction false} ReadersInv(l: Layout, s: State, t: State, step: Step)
    requires Inv(l, s) && Next(l, s, t, step) && OfReaders(step)
    ensures Inv(l, t)
  {
    match step
    case Get(b) => GetInv(l, s, t, b);
    case Lock(b) => LockInv(l, s, t, b);
    case Fill(b) => FillInv(l, s, t, b);
    case Unlock(b) => UnlockInv(l, s, t, b);
    case Drop(b) => DropInv(l, s, t, b);
    case Recycle(b) => RecycleInv(l, s, t, b);
  }

  lemma {:induction false} CommitInv(l: Layout, s: State, t: State, step: Step)
    requires Inv(l, s) && Next(l, s, t, step) && OfCommit(step)
    ensures Inv(l, t)
  {
    match step
    case CopyToSlot => CopyToSlotInv(l, s, t);
    case WriteHeader => WriteHeaderInv(l, s, t);
    case Install => InstallInv(l, s, t);
    case Erase => EraseInv(l, s, t);
    case Crash => CrashInv(l, s, t);
  }

  lemma {:induction false} WritersInv(l: Layout, s: State, t: State, step: Step)
    requires Inv(l, s) && Next(l, s, t, step) && !OfReaders(step) && !OfCommit(step)
    ensures Inv(l, t)
  {
    match step
    case Begin(op) => BeginEndInv(l, s, t, step);
    case LockForWrite(op, b) => LockForWriteInv(l, s, t, op, b);
    case Modify(op, b, data) => ModifyInv(l, s, t, op, b, data);
    case LogWrite(op, b) => LogWriteInv(l, s, t, op, b);
    case Release(op, b) => ReleaseInv(l, s, t, op, b);
    case Abandon(op, b) => AbandonInv(l, s, t, op, b);
    case End(op) => BeginEndInv(l, s, t, step);
  }

  lemma {:induction false} NextInv(l: Layout, s: State, t: State, step: Step)
    requires Inv(l, s) && Next(l, s, t, step)
    ensures Inv(l, t)
  {
    if OfReaders(step) {
      ReadersInv(l, s, t, step);
    } else if OfCommit(step) {
      CommitInv(l, s, t, step);
    } else {
      WritersInv(l, s, t, step);
    }
  }

  // Whole runs

  /** A run: states and the steps between them. */
  ghost predicate Run(l: Layout, states: seq<State>, steps: seq<Step>) {
    && |states| == |steps| + 1 && Init(l, states[0])
    && forall i :: 0 <= i < |steps| ==> StepAt(l, states, steps, i)
  }

  ghost predicate StepAt(l: Layout, states: seq<State>, steps: seq<Step>, i: nat)
    requires i < |steps| && |states| == |steps| + 1
  {
    WellLaid(l) && |states[i].disk| == l.blocks && |states[i].logical| == l.blocks &&
    Next(l, states[i], states[i + 1], steps[i])
  }

  lemma {:induction false} RunInv(l: Layout, states: seq<State>, steps: seq<Step>, i: nat)
    requires Run(l, states, steps) && i < |states|
    ensures Inv(l, states[i])
  {
    if i == 0 {
      InitInv(l, states[0]);
    } else {
      RunInv(l, states, steps, i - 1);
      assert StepAt(l, states, steps, i - 1);
      NextInv(l, states[i - 1], states[i], steps[i - 1]);
    }
  }

  /** Crash atomicity: at every point of every run, including inside recovery, a
      crash recovers exactly the contents committed by the last header write. */
  lemma {:induction false} EveryRunIsCrashSafe(l: Layout, states: seq<State>, steps: seq<Step>, i: nat)
    requires Run(l, states, steps) && i < |states|
    ensures CrashesTo(l, states[i].disk, states[i].committed)
  {
    RunInv(l, states, steps, i);
    InvIsCrashSafe(l, states[i]);
  }

  lemma {:induction false} CommittedChanges(l: Layout, states: seq<State>, steps: seq<Step>, i: nat)
    requires Run(l, states, steps) && i < |steps|
    ensures states[i + 1].committed == if steps[i] == WriteHeader then states[i].logical else states[i].committed
  {
    assert StepAt(l, states, steps, i);
  }

  /** When the header is written no operation is in progress, and the home blocks on disk
      are still those of the commit before: the group goes from nothing to everything. */
  lemma {:induction false} GroupsCommitWhole(l: Layout, states: seq<State>, steps: seq<Step>, i: nat)
    requires Run(l, states, steps) && i < |steps| && steps[i] == WriteHeader
    ensures states[i].ops == map[] && SameHome(l, states[i].disk, states[i].committed)
  {
    RunInv(l, states, steps, i);
    assert StepAt(l, states, steps, i);
    var s := states[i];
    forall b | 0 <= b < l.blocks && !InLog(l, b) ensures s.disk[b] == s.committed[b] {
      assert Home(l, b);
    }
  }

  lemma {:induction false} LogicalChanges(l: Layout, states: seq<State>, steps: seq<Step>, i: nat)
    requires Run(l, states, steps) && i < |steps|
    ensures steps[i] == Crash ==> states[i + 1].logical == states[i].committed
    ensures steps[i].LogWrite? ==>
      && steps[i].b in states[i].cache && steps[i].b < l.blocks == |states[i].logical|
      && states[i + 1].logical == states[i].logical[steps[i].b := states[i].cache[steps[i].b].data]
    ensures steps[i].Abandon? && steps[i].b in states[i].lh ==>
      && steps[i].b in states[i].cache && steps[i].b < l.blocks == |states[i].logical|
      && states[i + 1].logical == states[i].logical[steps[i].b := states[i].cache[steps[i].b].data]
    ensures !steps[i].Crash? && !steps[i].LogWrite? && !(steps[i].Abandon? && steps[i].b in states[i].lh) ==>
      states[i + 1].logical == states[i].logical
  {
    RunInv(l, states, steps, i);
    assert StepAt(l, states, steps, i);
  }

  /** bread returns the last logged contents: outside recovery, a locked and valid
      buffer nobody is modifying holds the logical contents of its block, whether
      it came from the cache, the log or the home location; unless a writer has released
      it with a change that it has not logged. */
  lemma {:induction false} ReadersSeeTheLastLogged(l: Layout, states: seq<State>, steps: seq<Step>, i: nat, b: nat)
    requires Run(l, states, steps) && i < |states| && Home(l, b)
    requires !states[i].phase.Recovering? && !BeingWritten(states[i], b)
    ensures |states[i].disk| == l.blocks == |states[i].logical|
    ensures b !in states[i].strays ==> View(states[i], b) == states[i].logical[b]
    ensures b in states[i].strays ==> states[i].disk[b] == states[i].logical[b]
  {
    RunInv(l, states, steps, i);
    var s := states[i];
    assert BlockOk(l, s, b);
    if b in s.cache {
      assert EntryOk(l, s, b);
    }
    if b in s.strays {
      assert StrayOk(l, s, b);
    }
  }

  /** Only such a release makes a block stray, and only one that was not in the
      transaction. */
  lemma {:induction false} StraysComeFrom(l: Layout, states: seq<State>, steps: seq<Step>, i: nat, b: nat)
    requires Run(l, states, steps) && i < |states| && b in states[i].strays
    ensures exists j: nat :: j < i && Strands(states, steps, j, b)
  {
    if i > 0 {
      assert StepAt(l, states, steps, i - 1);
      if b in states[i - 1].strays {
        StraysComeFrom(l, states, steps, i - 1, b);
      } else {
        assert Strands(states, steps, i - 1, b);
      }
    }
  }

  /** Step `j` releases a changed buffer of block `b`, unlogged and unlisted. */
  ghost predicate Strands(states: seq<State>, steps: seq<Step>, j: nat, b: nat) {
    j < |steps| && j < |states| && steps[j].Abandon? && steps[j].b == b && b !in states[j].lh
  }

  /** Every block the in-memory header lists stays cached, valid and referenced until
      it has been installed. */
  lemma {:induction false} LoggedBlocksStayCached(l: Layout, states: seq<State>, steps: seq<Step>, i: nat, b: nat)
    requires Run(l, states, steps) && i < |states| && !states[i].phase.Recovering?
    requires b in Behind(states[i])
    ensures b in states[i].cache && states[i].cache[b].pinned && states[i].cache[b].valid
  {
    RunInv(l, states, steps, i);
    assert BlockOk(l, states[i], b);
    assert EntryOk(l, states[i], b);
  }

  /** When recovery has erased the header, the home blocks on disk are the committed
      contents. */
  lemma {:induction false} RecoveryRestores(l: Layout, states: seq<State>, steps: seq<Step>, i: nat)
    requires Run(l, states, steps) && i < |steps| && steps[i] == Erase
    ensures states[i + 1].phase == Idle && SameHome(l, states[i + 1].disk, states[i + 1].committed)
    ensures SameHome(l, states[i + 1].logical, states[i + 1].committed)
  {
    RunInv(l, states, steps, i);
    RunInv(l, states, steps, i + 1);
    assert StepAt(l, states, steps, i);
    var t := states[i + 1];
    forall b | 0 <= b < l.blocks && !InLog(l, b) ensures t.disk[b] == t.committed[b] == t.logical[b] {
      assert Home(l, b) && BlockOk(l, t, b);
    }
  }

  /** The position of the last header write before step `i`, or -1. */
  ghost function LastHeader(steps: seq<Step>, i: nat): (j: int)
    requires i <= |steps|
    ensures -1 <= j < i && (j >= 0 ==> steps[j] == WriteHeader)
    ensures forall k :: j < k < i ==> steps[k] != WriteHeader
  {
    if i == 0 then -1 else if steps[i - 1] == WriteHeader then i - 1 else LastHeader(steps, i - 1)
  }

  /** No committed transaction is ever lost and none that did not commit shows: at
      any point of any run, however many crashes it contains, a crash recovers the
      contents logged when the last header write happened, or the initial disk. */
  lemma {:induction false} CrashRecoversTheLastCommit(l: Layout, states: seq<State>, steps: seq<Step>, i: nat)
    requires Run(l, states, steps) && i < |states|
    ensures var j := LastHeader(steps, i);
      CrashesTo(l, states[i].disk, if j == -1 then states[0].disk else states[j].logical)
  {
    EveryRunIsCrashSafe(l, states, steps, i);
    CommittedIsLastHeader(l, states, steps, i);
  }

  lemma {:induction false} CommittedIsLastHeader(l: Layout, states: seq<State>, steps: seq<Step>, i: nat)
    requires Run(l, states, steps) && i < |states|
    ensures var j := LastHeader(steps, i);
      states[i].committed == if j == -1 then states[0].disk else states[j].logical
  {
    if i > 0 {
      CommittedIsLastHeader(l, states, steps, i - 1);
      CommittedChanges(l, states, steps, i - 1);
    }
  }

  /** Step `j` puts contents of block `b` into the running transaction: by log_write, or by
      releasing the changed buffer of a block that is in it. */
  ghost predicate PutsIn(states: seq<State>, steps: seq<Step>, j: nat, b: nat)
    requires j < |steps| && j < |states|
  {
    || (steps[j].LogWrite? && steps[j].b == b)
    || (steps[j].Abandon? && steps[j].b == b && b in states[j].lh)
  }

  /** The last such step for block `b` before step `i` that no crash has undone, or -1: a
      crash undoes what came after the last header write. */
  ghost function LastSurviving(states: seq<State>, steps: seq<Step>, i: nat, b: nat): (j: int)
    requires i <= |steps| < |states|
    ensures -1 <= j < i && (j >= 0 ==> PutsIn(states, steps, j, b))
    decreases i
  {
    if i == 0 then -1
    else if PutsIn(states, steps, i - 1, b) then i - 1
    else if steps[i - 1] == Crash then
      var h := LastHeader(steps, i - 1);
      if h == -1 then -1 else LastSurviving(states, steps, h, b)
    else LastSurviving(states, steps, i - 1, b)
  }

  /** What the buffer held at that step, or what the disk held at first. */
  ghost predicate SurvivingContents(l: Layout, states: seq<State>, steps: seq<Step>, i: nat, b: nat, data: Block)
    requires Run(l, states, steps) && i < |states|
  {
    var j := LastSurviving(states, steps, i, b);
    if j == -1 then b < |states[0].disk| && data == states[0].disk[b]
    else b in states[j].cache && data == states[j].cache[b].data
  }

  lemma {:induction false} LogicalSurvives(l: Layout, states: seq<State>, steps: seq<Step>, i: nat, b: nat)
    requires Run(l, states, steps) && i < |states| && b < l.blocks
    ensures |states[i].logical| == l.blocks && SurvivingContents(l, states, steps, i, b, states[i].logical[b])
    decreases i
  {
    RunInv(l, states, steps, i);
    if i > 0 {
      LogicalChanges(l, states, steps, i - 1);
      var step := steps[i - 1];
      if step == Crash {
        CommittedIsLastHeader(l, states, steps, i - 1);
        var h := LastHeader(steps, i - 1);
        if h >= 0 {
          LogicalSurvives(l, states, steps, h, b);
        }
      } else if !PutsIn(states, steps, i - 1, b) {
        LogicalSurvives(l, states, steps, i - 1, b);
      }
    }
  }

  /** Through any number of crashes and recoveries, a reader of a block that is not stray
      gets what the last log_write of the block that survived has logged. */
  lemma {:induction false} ReadersSeeTheLastSurviving(l: Layout, states: seq<State>, steps: seq<Step>, i: nat, b: nat)
    requires Run(l, states, steps) && i < |states| && Home(l, b)
    requires !states[i].phase.Recovering? && !BeingWritten(states[i], b) && b !in states[i].strays
    ensures |states[i].disk| == l.blocks && SurvivingContents(l, states, steps, i, b, View(states[i], b))
  {
    ReadersSeeTheLastLogged(l, states, steps, i, b);
    LogicalSurvives(l, states, steps, i, b);
  }
}
