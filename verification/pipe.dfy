/** Pipes (kernel/pipe.c).  Every method is one stretch of code run while holding the
    pipe's lock, up to a sleep or a return; readers and writers interleave between them. */
module Pipe {
  import opened Common
  import opened Blocks

  const PIPESIZE: nat := 512

  datatype Outcome = Sleeps | Returns(value: int)

  class Pipe {
    const data: array<byte>
    var nread: nat              // 32-bit counters
    var nwrite: nat
    var readopen: bool
    var writeopen: bool
    ghost var produced: seq<byte>   // every byte ever written
    ghost var consumed: seq<byte>   // every byte ever read

    ghost predicate Valid()
      reads this, data
    {
      && data.Length == PIPESIZE
      && nread == |consumed| % UINT_LIMIT && nwrite == |produced| % UINT_LIMIT
      && |consumed| <= |produced| <= |consumed| + PIPESIZE
      && produced[..|consumed|] == consumed
      && forall k: nat :: |consumed| <= k < |produced| ==> data[k % PIPESIZE] == produced[k]
    }

    /** The bytes in the ring, oldest first. */
    ghost function Contents(): (s: seq<byte>)
      requires Valid()
      reads this, data
      ensures produced == consumed + s && |s| <= PIPESIZE
    {
      produced[|consumed|..]
    }

    constructor ()
      ensures Valid() && fresh(data) && readopen && writeopen && produced == consumed == []
    {
      data := new byte[PIPESIZE];
      nread, nwrite := 0, 0;
      readopen, writeopen := true, true;
      produced, consumed := [], [];
    }

    /** The ring is full exactly if the counters say so, wrapped around or not. */
    lemma {:induction false} FullWhen()
      requires Valid()
      ensures nwrite == (nread + PIPESIZE) % UINT_LIMIT <==> |produced| == |consumed| + PIPESIZE
      ensures nwrite == nread <==> |produced| == |consumed|
      ensures nwrite % PIPESIZE == |produced| % PIPESIZE && nread % PIPESIZE == |consumed| % PIPESIZE
    {
      CounterMod(|produced|);
      CounterMod(|consumed|);
    }

    lemma {:induction false} CounterMod(n: nat)
      ensures n % UINT_LIMIT % PIPESIZE == n % PIPESIZE
    {
      var q := n / UINT_LIMIT;
      assert n == q * UINT_LIMIT + n % UINT_LIMIT;
      assert n == (q * 8388608) * PIPESIZE + n % UINT_LIMIT;
    }

    lemma {:induction false} NextCount(n: nat)
      ensures (n % UINT_LIMIT + 1) % UINT_LIMIT == (n + 1) % UINT_LIMIT
    {
    }

    method Put(ch: byte)
      requires Valid() && |produced| < |consumed| + PIPESIZE
      modifies this, data
      ensures Valid() && produced == old(produced) + [ch] && consumed == old(consumed)
      ensures readopen == old(readopen) && writeopen == old(writeopen)
    {
      FullWhen();
      NextCount(|produced|);
      Apart(|consumed|, |produced|);
      data[nwrite % PIPESIZE] := ch;
      nwrite := (nwrite + 1) % UINT_LIMIT;
      produced := produced + [ch];
    }

    /** No byte still in the ring shares the place of the next one. */
    lemma {:induction false} Apart(low: nat, high: nat)
      requires low <= high < low + PIPESIZE
      ensures forall k: nat {:trigger k % PIPESIZE} :: low <= k < high ==> k % PIPESIZE != high % PIPESIZE
    {
    }

    method Get() returns (ch: byte)
      requires Valid() && |consumed| < |produced|
      modifies this`nread, this`consumed
      ensures Valid() && consumed == old(consumed) + [ch] == produced[..|consumed|]
    {
      FullWhen();
      NextCount(|consumed|);
      assert produced[|consumed|] == data[|consumed| % PIPESIZE];
      ch := data[nread % PIPESIZE];
      nread := (nread + 1) % UINT_LIMIT;
      consumed := consumed + [ch];
    }

    /** pipewrite from byte `start` of `src` on, the first `readable` bytes of which can be
        copied in; the process is seen to be killed from byte `killedFrom` on.  It sleeps
        only when the ring is full, and returns short only when a copy fails; a kill is
        seen before the next byte, and the bytes already added stay. */
    method Write(src: seq<byte>, start: nat, readable: nat, killedFrom: nat) returns (outcome: Outcome, i: nat)
      requires Valid() && start <= |src|
      modifies this, data
      ensures Valid() && start <= i <= |src| && produced == old(produced) + src[start..i] && consumed == old(consumed)
      ensures readopen == old(readopen) && writeopen == old(writeopen)
      ensures i > start ==> readopen && i <= readable && i <= killedFrom
      ensures outcome == Returns(-1) <==> i < |src| && (!readopen || killedFrom <= i)
      ensures outcome == Sleeps <==> i < |src| && readopen && i < killedFrom && |Contents()| == PIPESIZE
      ensures outcome != Sleeps && outcome != Returns(-1) ==> outcome == Returns(i)
      ensures outcome == Returns(i) && i < |src| ==> i >= readable && |Contents()| < PIPESIZE
    {
      i := start;
      assert src[start..start] == [];
      while i < |src|
        invariant start <= i <= |src| && Valid()
        invariant produced == old(produced) + src[start..i] && consumed == old(consumed)
        invariant readopen == old(readopen) && writeopen == old(writeopen)
        invariant i > start ==> readopen && i <= readable && i <= killedFrom
      {
        if !readopen || killedFrom <= i {
          return Returns(-1), i;
        }
        FullWhen();
        if nwrite == (nread + PIPESIZE) % UINT_LIMIT {
          return Sleeps, i;
        }
        if i >= readable {
          break;
        }
        Put(src[i]);
        assert src[start..i] + [src[i]] == src[start..i + 1];
        i := i + 1;
      }
      outcome := Returns(i);
    }

    /** piperead: waits while the ring is empty and a writer is left, then takes what
        there is, up to `n` bytes.  The first `room` bytes can be copied out; a byte that
        cannot is taken from the ring all the same. */
    method Read(n: int, room: nat, killed: bool) returns (outcome: Outcome, dst: seq<byte>)
      requires Valid()
      modifies this`nread, this`consumed
      ensures Valid()
      ensures old(Contents()) == [] && writeopen ==> outcome == (if killed then Returns(-1) else Sleeps) && dst == []
      ensures old(Contents()) == [] && writeopen ==> consumed == old(consumed)
      ensures !(old(Contents()) == [] && writeopen) ==>
        outcome == Returns(|dst|) && |dst| == Min(Min(if n < 0 then 0 else n, room), |old(Contents())|)
      ensures consumed == old(consumed) + dst || (|dst| == room < n && exists lost ::
        consumed == old(consumed) + dst + [lost])
    {
      FullWhen();
      dst := [];
      if nread == nwrite && writeopen {
        return if killed then Returns(-1) else Sleeps, [];
      }
      while |dst| < n
        invariant Valid() && consumed == old(consumed) + dst
        invariant |dst| <= Min(Min(if n < 0 then 0 else n, room), |old(Contents())|)
      {
        FullWhen();
        if nread == nwrite {
          break;
        }
        var ch := Get();
        if |dst| >= room {
          assert consumed == old(consumed) + dst + [ch];
          break;
        }
        dst := dst + [ch];
      }
      outcome := Returns(|dst|);
    }

    /** pipeclose, up to the decision to free the page. */
    method Close(writable: bool) returns (last: bool)
      requires Valid()
      modifies this`readopen, this`writeopen
      ensures Valid() && writeopen == (old(writeopen) && !writable) && readopen == (old(readopen) && writable)
      ensures last <==> !readopen && !writeopen
    {
      if writable {
        writeopen := false;
      } else {
        readopen := false;
      }
      last := !readopen && !writeopen;
    }
  }

  // The life of a pipe

  /** Two files, one per end, with their reference counts; an end whose last reference
      has gone (`closing`) still has to close its side of the pipe.  `inside` counts the
      calls of piperead, or pipewrite, that have begun and not returned: sys_read and
      sys_write find the file in the process's table and take no reference of their own. */
  datatype End = End(refs: nat, closing: bool, open: bool, inside: nat)

  datatype State = State(reader: End, writer: End, frees: nat)

  datatype Step =
    | Dup(writable: bool)        // filedup
    | Drop(writable: bool)       // fileclose, under the file table's lock
    | Close(writable: bool)      // pipeclose, under the pipe's lock
    | Begin(writable: bool)      // a thread finds the file and calls piperead or pipewrite
    | Touch(writable: bool)      // such a call takes the pipe's lock, first or after a sleep
    | Finish(writable: bool)     // such a call returns

  function Side(s: State, writable: bool): End {
    if writable then s.writer else s.reader
  }

  function With(s: State, writable: bool, e: End): State {
    if writable then s.(writer := e) else s.(reader := e)
  }

  predicate Enabled(s: State, step: Step) {
    match step
    case Dup(w) => Side(s, w).refs > 0
    case Drop(w) => Side(s, w).refs > 0
    case Close(w) => Side(s, w).closing
    case Begin(w) => Side(s, w).refs > 0
    case Touch(w) => Side(s, w).inside > 0
    case Finish(w) => Side(s, w).inside > 0
  }

  function Next(s: State, step: Step): State
    requires Enabled(s, step)
  {
    var e := Side(s, step.writable);
    match step
    case Dup(w) => With(s, w, e.(refs := e.refs + 1))
    case Drop(w) => With(s, w, if e.refs > 1 then e.(refs := e.refs - 1) else e.(refs := 0, closing := true))
    case Close(w) =>
      var t := With(s, w, e.(open := false, closing := false));
      if !t.reader.open && !t.writer.open then t.(frees := t.frees + 1) else t
    case Begin(w) => With(s, w, e.(inside := e.inside + 1))
    case Touch(w) => s
    case Finish(w) => With(s, w, e.(inside := e.inside - 1))
  }

  function Init(): State {
    State(End(1, false, true, 0), End(1, false, true, 0), 0)
  }

  ghost predicate EndOk(e: End) {
    (e.open <==> e.refs > 0 || e.closing) && !(e.refs > 0 && e.closing)
  }

  ghost predicate Inv(s: State) {
    EndOk(s.reader) && EndOk(s.writer) && s.frees == if s.reader.open || s.writer.open then 0 else 1
  }

  /** From state `states[0]`, the steps lead through `states`. */
  ghost predicate Path(steps: seq<Step>, states: seq<State>) {
    && |states| == |steps| + 1
    && forall i :: 0 <= i < |steps| ==> Enabled(states[i], steps[i]) && states[i + 1] == Next(states[i], steps[i])
  }

  ghost predicate Run(steps: seq<Step>, states: seq<State>) {
    Path(steps, states) && states[0] == Init()
  }

  lemma {:induction false} RunInv(steps: seq<Step>, states: seq<State>, i: nat)
    requires Run(steps, states) && i < |states|
    ensures Inv(states[i])
  {
    if i > 0 {
      RunInv(steps, states, i - 1);
      assert Enabled(states[i - 1], steps[i - 1]);
    }
  }

  /** In every run the page is freed once, by the close that leaves both ends closed, and
      never while a reference to an end is left. */
  lemma {:induction false} FreedOnce(steps: seq<Step>, states: seq<State>, i: nat)
    requires Run(steps, states) && i < |states|
    ensures states[i].frees <= 1
    ensures states[i].frees == 1 <==> forall w :: Side(states[i], w).refs == 0 && !Side(states[i], w).closing
  {
    RunInv(steps, states, i);
    var s := states[i];
    assert Side(s, true) == s.writer && Side(s, false) == s.reader;
  }

  // Operations on a freed page

  /** A reader sleeps in piperead; a sibling thread closes both descriptors, which frees
      the page; the reader wakes up and takes the lock in it. */
  lemma {:induction false} FreedUnderReader() returns (steps: seq<Step>, states: seq<State>)
    ensures Run(steps, states)
    ensures |steps| > 0 && states[|steps| - 1].frees == 1 && steps[|steps| - 1] == Touch(false)
  {
    var e := End(1, false, true, 0);
    steps := [Begin(false), Touch(false), Drop(true), Close(true), Drop(false), Close(false), Touch(false)];
    var open, closing, closed := End(1, false, true, 1), End(0, true, true, 1), End(0, false, false, 1);
    states := [Init(), State(open, e, 0), State(open, e, 0), State(open, e.(refs := 0, closing := true), 0),
      State(open, End(0, false, false, 0), 0), State(closing, End(0, false, false, 0), 0),
      State(closed, End(0, false, false, 0), 1), State(closed, End(0, false, false, 0), 1)];
  }

  /** The steps drop no reference to that end and finish no operation on it. */
  ghost predicate Keeping(steps: seq<Step>, w: bool) {
    forall i :: 0 <= i < |steps| ==> steps[i] != Drop(w) && steps[i] != Finish(w)
  }

  /** Such steps lead from `s` to a state in which the page has been freed. */
  ghost predicate FreesAlong(s: State, w: bool, steps: seq<Step>, states: seq<State>) {
    Path(steps, states) && states[0] == s && Keeping(steps, w) && states[|steps|].frees == 1
  }

  ghost predicate FreeableFrom(s: State, w: bool) {
    exists steps, states :: FreesAlong(s, w, steps, states)
  }

  lemma {:induction false} KeptOpen(steps: seq<Step>, states: seq<State>, w: bool, i: nat)
    requires Path(steps, states) && Keeping(steps, w) && i < |states|
    requires Inv(states[0]) && Side(states[0], w).refs > 0
    ensures Inv(states[i]) && Side(states[i], w).refs > 0
  {
    if i > 0 {
      KeptOpen(steps, states, w, i - 1);
      assert Enabled(states[i - 1], steps[i - 1]) && steps[i - 1] != Drop(w);
    }
  }

  /** The state after a step can free the page, so the state before it can. */
  lemma {:induction false} FreeableBefore(s: State, step: Step, w: bool)
    requires Enabled(s, step) && step != Drop(w) && step != Finish(w) && FreeableFrom(Next(s, step), w)
    ensures FreeableFrom(s, w)
  {
    var steps, states :| FreesAlong(Next(s, step), w, steps, states);
    var steps', states' := [step] + steps, [s] + states;
    forall i | 0 <= i < |steps'|
      ensures Enabled(states'[i], steps'[i]) && states'[i + 1] == Next(states'[i], steps'[i])
    {
      if i > 0 {
        assert steps'[i] == steps[i - 1] && states'[i] == states[i - 1];
      }
    }
    assert states'[|steps'|] == states[|steps|] && FreesAlong(s, w, steps', states');
  }

  /** Without a reference to end `w`, dropping the references to the other end and closing
      what is left to close frees the page. */
  lemma {:induction false} Freeable(s: State, w: bool)
    requires Inv(s) && Side(s, w).refs == 0
    ensures FreeableFrom(s, w)
    decreases Side(s, !w).refs, Side(s, !w).closing, Side(s, w).closing
  {
    if Side(s, !w).refs > 0 {
      Freeable(Next(s, Drop(!w)), w);
      FreeableBefore(s, Drop(!w), w);
    } else if Side(s, !w).closing {
      Freeable(Next(s, Close(!w)), w);
      FreeableBefore(s, Close(!w), w);
    } else if Side(s, w).closing {
      Freeable(Next(s, Close(w)), w);
      FreeableBefore(s, Close(w), w);
    } else {
      var none: seq<Step> := [];
      assert FreesAlong(s, w, none, [s]);
    }
  }

  /** While an operation on an end is in flight, others can free the page under it, without
      dropping a reference to that end, exactly if the last such reference has gone: so an
      operation is safe exactly if a reference to its end is kept until it returns. */
  lemma {:induction false} FreedUnderOperation(steps: seq<Step>, states: seq<State>, n: nat, w: bool)
    requires Run(steps, states) && n < |states| && Side(states[n], w).inside > 0
    ensures FreeableFrom(states[n], w) <==> Side(states[n], w).refs == 0
  {
    RunInv(steps, states, n);
    if Side(states[n], w).refs == 0 {
      Freeable(states[n], w);
    } else {
      forall more, later | Path(more, later) && later[0] == states[n] && Keeping(more, w)
        ensures !FreesAlong(states[n], w, more, later)
      {
        KeptOpen(more, later, w, |more|);
      }
    }
  }

  /** Step `i` drops the last reference to an end with an operation in flight. */
  ghost predicate Strands(steps: seq<Step>, states: seq<State>, i: nat) {
    && i < |steps| && i < |states| && steps[i].Drop?
    && Side(states[i], steps[i].writable).refs == 1 && Side(states[i], steps[i].writable).inside > 0
  }

  lemma {:induction false} RefsKept(steps: seq<Step>, states: seq<State>, i: nat, w: bool)
    requires Run(steps, states) && i < |states| && forall d: nat :: d < i ==> !Strands(steps, states, d)
    ensures Side(states[i], w).inside > 0 ==> Side(states[i], w).refs > 0
  {
    if i > 0 {
      RefsKept(steps, states, i - 1, w);
      assert Enabled(states[i - 1], steps[i - 1]) && !Strands(steps, states, i - 1);
    }
  }

  /** In every run in which nobody drops the last reference to an end while an operation on
      it is in flight, no operation ever touches a freed page. */
  lemma {:induction false} TouchesThePage(steps: seq<Step>, states: seq<State>, i: nat)
    requires Run(steps, states) && i < |steps| && steps[i].Touch?
    requires forall d: nat :: d < i ==> !Strands(steps, states, d)
    ensures states[i].frees == 0
  {
    RunInv(steps, states, i);
    RefsKept(steps, states, i, steps[i].writable);
    assert Enabled(states[i], steps[i]);
  }
}
