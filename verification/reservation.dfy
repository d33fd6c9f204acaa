/** Admission to the log (kernel/log.c): begin_op reserves MAXOPBLOCKS log blocks
    for every outstanding call, log_write spends them, the last end_op commits and
    empties the log.  Each step is one critical section of log.lock. */
module Reservation {
  import opened Common

  datatype State = State(
    n: nat,               // lh.n
    ops: seq<nat>,        // one element per outstanding call: the blocks it has added
    committing: bool)

  datatype Step =
    | Begin
    | Absorb(i: nat)      // log_write of a block already in the log
    | Add(i: nat)         // log_write of a block new to the log
    | End(i: nat)
    | CommitDone

  predicate Admitted(s: State) {
    !s.committing && s.n + (|s.ops| + 1) * MAXOPBLOCKS <= LOGSIZE
  }

  /** log_write's first test, where the kernel panics. */
  predicate TooBig(s: State, size: nat) {
    s.n >= LOGSIZE || s.n >= size - 1
  }

  /** end_op's test, where the kernel panics. */
  predicate EndPanics(s: State) {
    s.committing
  }

  /** Steps that do not panic, of calls that each add at most MAXOPBLOCKS blocks. */
  ghost predicate Next(s: State, t: State, size: nat, step: Step) {
    match step
    case Begin => Admitted(s) && t == s.(ops := s.ops + [0])
    case Absorb(i) => i < |s.ops| && !TooBig(s, size) && t == s
    case Add(i) =>
      && i < |s.ops| && s.ops[i] < MAXOPBLOCKS && !TooBig(s, size)
      && t == s.(n := s.n + 1, ops := s.ops[i := s.ops[i] + 1])
    case End(i) =>
      && i < |s.ops| && !EndPanics(s)
      && t == s.(ops := s.ops[..i] + s.ops[i + 1..], committing := |s.ops| == 1)
    case CommitDone => s.committing && t == s.(n := 0, committing := false)
  }

  ghost predicate Run(states: seq<State>, size: nat) {
    && |states| > 0 && states[0] == State(0, [], false)
    && forall k :: 0 < k < |states| ==> Follows(states, size, k)
  }

  ghost predicate Follows(states: seq<State>, size: nat, k: nat)
    requires 0 < k < |states|
  {
    CanStep(states[k - 1], states[k], size)
  }

  ghost predicate CanStep(s: State, t: State, size: nat) {
    exists step :: Next(s, t, size, step)
  }

  /** What the outstanding calls may still add. */
  ghost function Unspent(ops: seq<nat>): int {
    if ops == [] then 0 else MAXOPBLOCKS - ops[0] + Unspent(ops[1..])
  }

  lemma {:induction false} UnspentAppend(a: seq<nat>, b: seq<nat>)
    ensures Unspent(a + b) == Unspent(a) + Unspent(b)
  {
    if a == [] {
      assert a + b == b;
    } else {
      UnspentAppend(a[1..], b);
      assert (a + b)[1..] == a[1..] + b;
    }
  }

  lemma {:induction false} UnspentAt(ops: seq<nat>, i: nat)
    requires i < |ops|
    ensures Unspent(ops) == Unspent(ops[..i]) + (MAXOPBLOCKS - ops[i]) + Unspent(ops[i + 1..])
  {
    UnspentAppend(ops[..i], ops[i..]);
    assert ops == ops[..i] + ops[i..];
    assert ops[i..][1..] == ops[i + 1..];
  }

  /** Nobody has more than MAXOPBLOCKS left, and nobody has less than nothing. */
  lemma {:induction false} UnspentBounds(ops: seq<nat>)
    requires forall j :: 0 <= j < |ops| ==> ops[j] <= MAXOPBLOCKS
    ensures 0 <= Unspent(ops) <= |ops| * MAXOPBLOCKS
  {
    if ops != [] {
      UnspentBounds(ops[1..]);
    }
  }

  ghost predicate Inv(s: State) {
    && (forall j :: 0 <= j < |s.ops| ==> s.ops[j] <= MAXOPBLOCKS)
    && s.n + Unspent(s.ops) <= LOGSIZE
    && (s.committing ==> s.ops == [])
  }

  lemma {:induction false} NextInv(s: State, t: State, size: nat, step: Step)
    requires Inv(s) && Next(s, t, size, step)
    ensures Inv(t)
  {
    match step
    case Begin =>
      UnspentBounds(s.ops);
      UnspentAppend(s.ops, [0]);
      assert Unspent([0]) == MAXOPBLOCKS;
    case Absorb(i) =>
    case Add(i) =>
      UnspentAt(s.ops, i);
      UnspentAt(t.ops, i);
      assert t.ops[..i] == s.ops[..i] && t.ops[i + 1..] == s.ops[i + 1..];
    case End(i) =>
      UnspentAt(s.ops, i);
      UnspentAppend(s.ops[..i], s.ops[i + 1..]);
    case CommitDone =>
  }

  /** In every interleaving, the log's contents and everything the outstanding calls
      may still add fit the log, and no call is outstanding while a commit runs. */
  lemma {:induction false} LogNeverOverbooked(states: seq<State>, size: nat, k: nat)
    requires Run(states, size) && k < |states|
    ensures Inv(states[k])
  {
    if k > 0 {
      LogNeverOverbooked(states, size, k - 1);
      assert Follows(states, size, k);
      var step :| Next(states[k - 1], states[k], size, step);
      NextInv(states[k - 1], states[k], size, step);
    }
  }

  /** end_op's panic is unreachable. */
  lemma {:induction false} EndNeverPanics(states: seq<State>, size: nat, k: nat, i: nat)
    requires Run(states, size) && k < |states| && i < |states[k].ops|
    ensures !EndPanics(states[k])
  {
    LogNeverOverbooked(states, size, k);
  }

  /** With log.size equal to LOGSIZE, as mkfs lays the disk out, the log has one
      slot less than begin_op gives away, and log_write's size test can fail. */
  ghost predicate CanFail(a: nat) {
    exists states: seq<State>, k: nat, i: nat :: FailsAt(states, k, i, a)
  }

  ghost predicate FailsAt(states: seq<State>, k: nat, i: nat, a: nat) {
    && Run(states, LOGSIZE) && k < |states| && i < |states[k].ops| && states[k].ops[i] == a
    && TooBig(states[k], LOGSIZE)
  }

  /** It fails for a call that has so far added `a` of its blocks exactly when `a` is
      one short of the reservation: the last reserved block may not be there. */
  lemma {:induction false} TooBigExactlyForTheLastBlock(a: nat)
    requires a < MAXOPBLOCKS
    ensures CanFail(a) <==> a == MAXOPBLOCKS - 1
  {
    if CanFail(a) {
      var states: seq<State>, k: nat, i: nat :| FailsAt(states, k, i, a);
      LogNeverOverbooked(states, LOGSIZE, k);
      var ops := states[k].ops;
      UnspentAt(ops, i);
      UnspentBounds(ops[..i]);
      UnspentBounds(ops[i + 1..]);
    }
    if a == MAXOPBLOCKS - 1 {
      FullHouseRuns();
      assert FailsAt(FullHouse(), 32, 2, a);
    }
  }

  /** Three calls admitted at once, then one block after the other until the third
      call has a single reserved block left. */
  ghost function FullHouse(): (states: seq<State>) {
    seq(33, k requires 0 <= k < 33 => FullHouseAt(k))
  }

  ghost function FullHouseAt(k: nat): State {
    if k < 4 then State(0, seq(k, _ => 0), false)
    else State(k - 3, [Clamp(k - 3), Clamp(k - 13), Clamp(k - 23)], false)
  }

  ghost function Clamp(x: int): nat {
    if x < 0 then 0 else if x > 10 then 10 else x
  }

  lemma {:induction false} FullHouseRuns()
    ensures Run(FullHouse(), LOGSIZE)
  {
    var states := FullHouse();
    forall k | 0 < k < |states| ensures Follows(states, LOGSIZE, k) {
      var s, t := states[k - 1], states[k];
      if k < 4 {
        assert t.ops == s.ops + [0];
        assert Next(s, t, LOGSIZE, Begin);
      } else {
        var i := if k - 3 <= 10 then 0 else if k - 13 <= 10 then 1 else 2;
        assert k == 4 ==> s.ops == [0, 0, 0];
        assert t.ops == s.ops[i := s.ops[i] + 1];
        assert Next(s, t, LOGSIZE, Add(i));
      }
    }
  }
}
