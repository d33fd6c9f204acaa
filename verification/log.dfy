/** The logging layer of kernel/log.c, running over the buffer cache.  Every
    method that writes the disk also says which disks it passes through, one per
    block write: `bc.trace` grows by exactly those.  A `false` result stands for
    a kernel panic; what was written up to that point is still accounted for. */
module Log {
  import opened Common
  import opened Blocks
  import opened LruList
  import opened BufferCache
  import opened LogDisk

  ghost function LoggedTrace(l: Layout, d: Disk, view: Disk, lh: seq<nat>, k: nat): (r: seq<Disk>)
    requires WellLaid(l) && |d| == l.blocks && |view| == l.blocks && Loggable(l, lh) && k <= |lh|
  {
    if k == 0 then [] else LoggedTrace(l, d, view, lh, k - 1) + [Logged(l, d, view, lh, k)]
  }

  ghost function InstalledTrace(l: Layout, d: Disk, lh: seq<nat>, k: nat): (r: seq<Disk>)
    requires WellLaid(l) && |d| == l.blocks && Loggable(l, lh) && k <= |lh|
  {
    if k == 0 then [] else InstalledTrace(l, d, lh, k - 1) + [Installed(l, d, lh, k)]
  }

  /** Crashing right after a block write of `tr`, counting from position `from`,
      yields `before` for the first `c` of them and `after` from then on. */
  ghost predicate CrashPoints(l: Layout, tr: seq<Disk>, from: nat, c: nat, before: Disk, after: Disk) {
    forall i {:trigger CrashPoint(l, tr, i, from, c, before, after)} ::
      from <= i < |tr| ==> CrashPoint(l, tr, i, from, c, before, after)
  }

  ghost predicate CrashPoint(l: Layout, tr: seq<Disk>, i: nat, from: nat, c: nat, before: Disk, after: Disk)
    requires i < |tr|
  {
    CrashesTo(l, tr[i], if i < from + c then before else after)
  }

  lemma {:induction false} CrashPointsAppend(l: Layout, tr: seq<Disk>, e: Disk, from: nat, c: nat, before: Disk,
      after: Disk)
    requires CrashPoints(l, tr, from, c, before, after)
    requires CrashesTo(l, e, if |tr| < from + c then before else after)
    ensures CrashPoints(l, tr + [e], from, c, before, after)
  {
    var tr' := tr + [e];
    forall i | from <= i < |tr'| ensures CrashPoint(l, tr', i, from, c, before, after) {
      assert i < |tr| ==> CrashPoint(l, tr, i, from, c, before, after);
    }
  }

  lemma {:induction false} LoggedCrashPoints(l: Layout, t: seq<Disk>, d: Disk, view: Disk, lh: seq<nat>, k: nat,
      after: Disk)
    requires WellLaid(l) && |d| == l.blocks && |view| == l.blocks && Loggable(l, lh) && k <= |lh|
    requires GetWord(d[l.start], 0) == 0
    ensures |LoggedTrace(l, d, view, lh, k)| == k
    ensures CrashPoints(l, t + LoggedTrace(l, d, view, lh, k), |t|, |lh|, d, after)
  {
    if k > 0 {
      LoggedCrashPoints(l, t, d, view, lh, k - 1, after);
      CrashWhileLogging(l, d, view, lh, k);
      CrashPointsAppend(l, t + LoggedTrace(l, d, view, lh, k - 1), Logged(l, d, view, lh, k), |t|, |lh|, d, after);
      assert t + LoggedTrace(l, d, view, lh, k) == t + LoggedTrace(l, d, view, lh, k - 1) + [Logged(l, d, view, lh, k)];
    }
  }

  /** The header write is the commit point. */
  lemma {:induction false} CommitPoint(l: Layout, t: seq<Disk>, d: Disk, view: Disk, lh: seq<nat>, h: Block)
    requires WellLaid(l) && |d| == l.blocks && |view| == l.blocks && Loggable(l, lh)
    requires GetWord(d[l.start], 0) == 0
    requires h == SetNumbers(d[l.start], lh, |lh|)
    ensures var e, after := Logged(l, d, view, lh, |lh|)[l.start := h], Overlay(d, view, lh);
      && CrashPoints(l, t + LoggedTrace(l, d, view, lh, |lh|) + [e], |t|, |lh|, d, after)
      && |LoggedTrace(l, d, view, lh, |lh|)| == |lh|
      && CrashesTo(l, e, after) && Numbers(e[l.start]) == lh
  {
    HeaderRoundTrip(d[l.start], lh);
    CrashAfterHeader(l, d, view, lh, h);
    LoggedCrashPoints(l, t, d, view, lh, |lh|, Overlay(d, view, lh));
    CrashPointsAppend(l, t + LoggedTrace(l, d, view, lh, |lh|), Logged(l, d, view, lh, |lh|)[l.start := h],
                      |t|, |lh|, d, Overlay(d, view, lh));
  }

  /** Installs add only crash points that recover to `after`. */
  lemma {:induction false} InstalledCrashPoints(l: Layout, t: seq<Disk>, d: Disk, k: nat,
                                                from: nat, c: nat, before: Disk, after: Disk)
    requires CrashesTo(l, d, after) && k <= |Numbers(d[l.start])|
    requires CrashPoints(l, t, from, c, before, after) && from + c <= |t|
    ensures |InstalledTrace(l, d, Numbers(d[l.start]), k)| == k
    ensures CrashPoints(l, t + InstalledTrace(l, d, Numbers(d[l.start]), k), from, c, before, after)
  {
    var lh := Numbers(d[l.start]);
    if k == 0 {
      assert t + InstalledTrace(l, d, lh, k) == t;
    } else {
      InstalledCrashPoints(l, t, d, k - 1, from, c, before, after);
      var tr, e := InstalledTrace(l, d, lh, k - 1), Installed(l, d, lh, k);
      assert CrashesTo(l, e, after) by {
        CrashWhileInstalling(l, d, k);
      }
      CrashPointsAppend(l, t + tr, e, from, c, before, after);
      assert t + (tr + [e]) == t + tr + [e];
    }
  }

  /** ... and so does erasing the header behind them. */
  lemma {:induction false} ErasedCrashPoint(l: Layout, t: seq<Disk>, d: Disk,
                                            from: nat, c: nat, before: Disk, after: Disk)
    requires CrashesTo(l, d, after)
    requires CrashPoints(l, t, from, c, before, after) && from + c <= |t|
    ensures var home := Recovered(l, d);
      var erased := home[l.start := SetNumbers(home[l.start], [], 0)];
      && CrashPoints(l, t + [erased], from, c, before, after)
      && SameHome(l, erased, after)
      && GetWord(erased[l.start], 0) == 0
  {
    var home := Recovered(l, d);
    NumbersAfterSet(home[l.start], [], 0, 0);
    CrashAfterErase(l, d, SetNumbers(home[l.start], [], 0));
    CrashPointsAppend(l, t, home[l.start := SetNumbers(home[l.start], [], 0)], from, c, before, after);
  }

  /** Every home block reads as before, or has been forgotten by the cache and reads as on the
      disk `d`. */
  ghost predicate HomeSettles(l: Layout, w: Blockwise, w': Blockwise, d: Disk) {
    && |w.view| == |w.refs| == |w'.view| == |d| == l.blocks
    && forall b: nat {:trigger SettlesAt(w, w', d, b)} :: b < l.blocks && !InLog(l, b) ==> SettlesAt(w, w', d, b)
  }

  lemma {:induction false} HomeSettlesOn(l: Layout, w: Blockwise, v: Blockwise, u: Blockwise, d: Disk, e: Disk)
    requires HomeSettles(l, w, v, d) && HomeSettles(l, v, u, e) && v.refs == w.refs && SameHome(l, d, e)
    ensures HomeSettles(l, w, u, d)
  {
    forall b: nat | b < l.blocks && !InLog(l, b) ensures SettlesAt(w, u, d, b) {
      assert SettlesAt(w, v, d, b) && SettlesAt(v, u, e, b);
    }
  }

  lemma {:induction false} LoggedHome(l: Layout, d: Disk, view: Disk, lh: seq<nat>, k: nat)
    requires WellLaid(l) && |d| == l.blocks && |view| == l.blocks && Loggable(l, lh) && k <= |lh|
    ensures SameHome(l, d, Logged(l, d, view, lh, k))
  {
    forall b | 0 <= b < l.blocks && !InLog(l, b) ensures d[b] == Logged(l, d, view, lh, k)[b] {
      LoggedAt(l, d, view, lh, k, b);
    }
  }

  /** After installing the first `k` listed blocks on the disk `d`, now `d'`: these read as on disk, and the
      other home blocks settle. */
  ghost predicate ViewInstalled(l: Layout, w: Blockwise, w': Blockwise, d: Disk, d': Disk, lh: seq<nat>, k: nat)
    requires k <= |lh|
  {
    && |w.view| == |w.refs| == |w'.view| == |d| == |d'| == l.blocks
    && forall b: nat {:trigger InstalledAt(l, w, w', d, d', lh, k, b)} ::
         b < l.blocks && !InLog(l, b) ==> InstalledAt(l, w, w', d, d', lh, k, b)
  }

  ghost predicate InstalledAt(l: Layout, w: Blockwise, w': Blockwise, d: Disk, d': Disk, lh: seq<nat>, k: nat, b: nat)
    requires k <= |lh| && b < l.blocks == |w.view| == |w.refs| == |w'.view| == |d| == |d'|
  {
    if b in lh[..k] then w'.view[b] == d'[b] else SettlesAt(w, w', d, b) && d'[b] == d[b]
  }

  /** One more: block `y` reads as on disk, and all others settle. */
  lemma {:induction false} ViewInstalledNext(l: Layout, w: Blockwise, v: Blockwise, u: Blockwise, d: Disk, e: Disk,
      e': Disk, lh: seq<nat>, k: nat)
    requires k < |lh| && ViewInstalled(l, w, v, d, e, lh, k) && Loggable(l, lh)
    requires |w.refs| == |v.refs| == |u.view| == l.blocks && v.refs == Unpinned(w.refs, lh, k)
    requires e' == e[lh[k] := u.view[lh[k]]] && SettlesBut(v, u, e, lh[k])
    ensures ViewInstalled(l, w, u, d, e', lh, k + 1)
  {
    assert lh[..k + 1] == lh[..k] + [lh[k]];
    forall b: nat | b < l.blocks && !InLog(l, b) ensures InstalledAt(l, w, u, d, e', lh, k + 1, b) {
      assert InstalledAt(l, w, v, d, e, lh, k, b);
      if b != lh[k] {
        assert SettlesAt(v, u, e, b);
        if b !in lh[..k] {
          UnpinnedElsewhere(w.refs, lh, k, b);
        }
      }
    }
  }

  /** All blocks but `y` settle. */
  ghost predicate SettlesBut(w: Blockwise, w': Blockwise, d: Disk, y: nat) {
    && |w.view| == |w.refs| == |w'.view| == |d|
    && forall b: nat {:trigger SettlesAt(w, w', d, b)} :: b < |d| && b != y ==> SettlesAt(w, w', d, b)
  }

  lemma {:induction false} SettlesSameView(w: Blockwise, v: Blockwise, u: Blockwise, d: Disk, y: nat)
    requires SettlesBut(w, v, d, y) && u.view == v.view
    ensures SettlesBut(w, u, d, y)
  {
    forall b: nat | b < |d| && b != y ensures SettlesAt(w, u, d, b) {
      assert SettlesAt(w, v, d, b);
    }
  }

  /** The cache forgets some more home blocks. */
  lemma {:induction false} ViewInstalledOn(l: Layout, w: Blockwise, v: Blockwise, u: Blockwise, d: Disk, e: Disk,
      e': Disk, lh: seq<nat>)
    requires ViewInstalled(l, w, v, d, e, lh, |lh|) && Loggable(l, lh)
    requires v.refs == Unpinned(w.refs, lh, |lh|) && HomeSettles(l, v, u, e) && SameHome(l, e, e')
    ensures ViewInstalled(l, w, u, d, e', lh, |lh|)
  {
    forall b: nat | b < l.blocks && !InLog(l, b) ensures InstalledAt(l, w, u, d, e', lh, |lh|, b) {
      assert InstalledAt(l, w, v, d, e, lh, |lh|, b) && SettlesAt(v, u, e, b);
      if b !in lh[..|lh|] {
        UnpinnedElsewhere(w.refs, lh, |lh|, b);
      }
    }
  }

  /** Each listed block is referenced, and listed once. */
  ghost predicate Pinned(refs: seq<nat>, lh: seq<nat>) {
    && (forall i :: 0 <= i < |lh| ==> lh[i] < |refs| && refs[lh[i]] > 0)
    && (forall i, j :: 0 <= i < j < |lh| ==> lh[i] != lh[j])
  }

  ghost predicate Unreferenced(refs: seq<nat>, lh: seq<nat>) {
    forall i :: 0 <= i < |lh| ==> lh[i] < |refs| && refs[lh[i]] == 0
  }

  ghost function OneLess(refs: seq<nat>, b: nat): (r: seq<nat>)
    requires b < |refs|
  {
    if refs[b] > 0 then refs[b := refs[b] - 1] else refs
  }

  /** The reference counts after the pins of the first `k` listed blocks have been
      dropped. */
  ghost function Unpinned(refs: seq<nat>, lh: seq<nat>, k: nat): (r: seq<nat>)
    requires k <= |lh| && forall i :: 0 <= i < |lh| ==> lh[i] < |refs|
    ensures |r| == |refs|
  {
    if k == 0 then refs else OneLess(Unpinned(refs, lh, k - 1), lh[k - 1])
  }

  lemma {:induction false} UnpinnedAt(refs: seq<nat>, lh: seq<nat>, k: nat, b: nat)
    requires k <= |lh| && Pinned(refs, lh) && b < |refs|
    ensures Unpinned(refs, lh, k)[b] == if b in lh[..k] then refs[b] - 1 else refs[b]
  {
    if k > 0 {
      assert lh[..k] == lh[..k - 1] + [lh[k - 1]];
      UnpinnedAt(refs, lh, k - 1, b);
    }
  }

  lemma {:induction false} UnpinnedElsewhere(refs: seq<nat>, lh: seq<nat>, k: nat, b: nat)
    requires k <= |lh| && (forall i :: 0 <= i < |lh| ==> lh[i] < |refs|) && b < |refs| && b !in lh[..k]
    ensures Unpinned(refs, lh, k)[b] == refs[b]
  {
    if k > 0 {
      assert lh[..k] == lh[..k - 1] + [lh[k - 1]];
      UnpinnedElsewhere(refs, lh, k - 1, b);
    }
  }

  /** The reference count the next install finds. */
  lemma {:induction false} UnpinnedNext(refs: seq<nat>, lh: seq<nat>, k: nat)
    requires k < |lh| && (Pinned(refs, lh) || Unreferenced(refs, lh))
    ensures Unpinned(refs, lh, k)[lh[k]] == refs[lh[k]]
  {
    if Pinned(refs, lh) {
      UnpinnedAt(refs, lh, k, lh[k]);
    } else {
      UnpinnedNone(refs, lh, k);
    }
  }

  lemma {:induction false} UnpinnedNone(refs: seq<nat>, lh: seq<nat>, k: nat)
    requires k <= |lh| && Unreferenced(refs, lh)
    ensures Unpinned(refs, lh, k) == refs
  {
    if k > 0 { UnpinnedNone(refs, lh, k - 1); }
  }

  /** Taking and dropping a reference to each of two blocks changes nothing, and
      dropping the pin on the second as well leaves one reference less. */
  lemma {:induction false} TakenAndDropped(w: Blockwise, x: nat, y: nat)
    requires x < |w.refs| == |w.held| && y < |w.refs| && x != y && !w.held[x] && !w.held[y]
    ensures var g := Got(Got(w, ROOTDEV, x), ROOTDEV, y);
      && g.refs[x] == w.refs[x] + 1 && g.refs[y] == w.refs[y] + 1
      && g.refs[x := w.refs[x]][y := w.refs[y]] == w.refs
      && g.refs[y := w.refs[y]][x := w.refs[x]] == w.refs
      && (w.refs[y] > 0 ==> g.refs[x := w.refs[x]][y := w.refs[y] - 1] == OneLess(w.refs, y))
      && g.held[x := false][y := false] == w.held
      && g.held[y := false][x := false] == w.held
  {
  }

  datatype LogWriteResult = Recorded | TooBig | OutsideTrans

  /** log_write's effect on the list of logged blocks: absorbed or appended. */
  ghost function Absorb(lh: seq<nat>, b: nat): (r: seq<nat>)
    ensures b in r && forall c :: c in r <==> c == b || c in lh
  {
    if b in lh then lh else lh + [b]
  }

  /** The disk after the first `k` of some block writes. */
  ghost function Applied(d: Disk, ws: seq<(nat, Block)>, k: nat): (r: Disk)
    requires k <= |ws| && forall i :: 0 <= i < |ws| ==> ws[i].0 < |d|
    ensures |r| == |d|
  {
    if k == 0 then d else Applied(d, ws, k - 1)[ws[k - 1].0 := ws[k - 1].1]
  }

  /** The blocks that the first `k` writes are for. */
  ghost function Targets(ws: seq<(nat, Block)>, k: nat): set<nat>
    requires k <= |ws|
  {
    if k == 0 then {} else Targets(ws, k - 1) + {ws[k - 1].0}
  }

  lemma {:induction false} TargetOf(ws: seq<(nat, Block)>, k: nat, b: nat) returns (i: nat)
    requires k <= |ws| && b in Targets(ws, k)
    ensures i < k && ws[i].0 == b
  {
    if ws[k - 1].0 == b {
      i := k - 1;
    } else {
      i := TargetOf(ws, k - 1, b);
    }
  }

  /** Block `b` after the first `k` writes: logged and pinned with its new contents, or as before. */
  ghost predicate WroteAt(lh: seq<nat>, v: Blockwise, ws: seq<(nat, Block)>, k: nat, w: Blockwise, d: Disk, b: nat)
    requires k <= |ws| && (forall i :: 0 <= i < |ws| ==> ws[i].0 < |d|)
    requires b < |d| == |w.view| == |w.refs| == |v.view| == |v.refs|
  {
    if b in lh then v.refs[b] == w.refs[b] + 1 && v.view[b] == Applied(d, ws, k)[b]
    else v.refs[b] == w.refs[b] && SettlesAt(w, v, d, b) && Applied(d, ws, k)[b] == d[b]
  }

  /** The first `k` writes have brought the cache from `w` to `v`, and the list of logged blocks to
      `lh`, over the disk `d`. */
  ghost predicate WroteTo(lh: seq<nat>, v: Blockwise, ws: seq<(nat, Block)>, k: nat, w: Blockwise, d: Disk)
    requires k <= |ws| && (forall i :: 0 <= i < |ws| ==> ws[i].0 < |d|)
    requires |d| == |w.view| == |w.refs|
  {
    && |v.view| == |v.refs| == |d| && (forall b: nat :: b in lh <==> b in Targets(ws, k))
    && forall b: nat {:trigger WroteAt(lh, v, ws, k, w, d, b)} :: b < |d| ==> WroteAt(lh, v, ws, k, w, d, b)
  }

  lemma {:induction false} WroteNone(ws: seq<(nat, Block)>, w: Blockwise, d: Disk)
    requires |w.view| == |w.refs| == |d| && (forall i :: 0 <= i < |ws| ==> ws[i].0 < |d|)
    ensures WroteTo([], w, ws, 0, w, d)
  {
    forall b: nat | b < |d| ensures WroteAt([], w, ws, 0, w, d, b) {
    }
  }

  /** The commit that follows takes all writes to the disk, and drops the pins. */
  lemma {:induction false} WroteAllOf(lh: seq<nat>, v: Blockwise, ws: seq<(nat, Block)>, w: Blockwise, d: Disk)
    requires |w.view| == |w.refs| == |d| && (forall i :: 0 <= i < |ws| ==> ws[i].0 < |d|)
    requires WroteTo(lh, v, ws, |ws|, w, d) && Pinned(v.refs, lh)
    ensures Overlay(d, v.view, lh) == Applied(d, ws, |ws|)
    ensures Unpinned(v.refs, lh, |lh|) == w.refs && (ws != [] ==> lh != [])
  {
    assert lh[..|lh|] == lh;
    forall b: nat | b < |d|
      ensures Overlay(d, v.view, lh)[b] == Applied(d, ws, |ws|)[b] && Unpinned(v.refs, lh, |lh|)[b] == w.refs[b]
    {
      assert WroteAt(lh, v, ws, |ws|, w, d, b);
      UnpinnedAt(v.refs, lh, |lh|, b);
    }
    if ws != [] {
      assert ws[|ws| - 1].0 in Targets(ws, |ws|);
    }
  }

  /** What a call with these writes leaves in the cache: its blocks read as written, the other home
      blocks as before, unless they have been forgotten. */
  ghost predicate Leaves(l: Layout, w: Blockwise, w': Blockwise, d: Disk, ws: seq<(nat, Block)>)
    requires |w.view| == |w.refs| == |w'.view| == |d| && forall i :: 0 <= i < |ws| ==> ws[i].0 < |d|
  {
    forall b: nat {:trigger SettlesAt(w, w', d, b)} :: b < |d| && !InLog(l, b) ==>
      if b in Targets(ws, |ws|) then w'.view[b] == Applied(d, ws, |ws|)[b] else SettlesAt(w, w', d, b)
  }

  lemma {:induction false} WroteThenSettles(l: Layout, lh: seq<nat>, v: Blockwise, u: Blockwise, ws: seq<(nat, Block)>,
      w: Blockwise, d: Disk)
    requires |w.view| == |w.refs| == |d| == l.blocks && (forall i :: 0 <= i < |ws| ==> ws[i].0 < |d|)
    requires WroteTo(lh, v, ws, |ws|, w, d) && HomeSettles(l, v, u, d)
    ensures Leaves(l, w, u, d, ws)
  {
    forall b: nat | b < l.blocks && !InLog(l, b)
      ensures if b in Targets(ws, |ws|) then u.view[b] == Applied(d, ws, |ws|)[b] else SettlesAt(w, u, d, b)
    {
      assert WroteAt(lh, v, ws, |ws|, w, d, b) && SettlesAt(v, u, d, b);
    }
  }

  class Log {
    const bc: Bcache
    const l: Layout
    const block: array<nat>     // lh.block
    var n: nat                  // lh.n
    var outstanding: nat
    var committing: bool

    /** The fields initlog sets before it runs recovery; the globals start zeroed. */
    constructor (bc: Bcache, l: Layout)
      requires bc.Valid() && bc.Clean() && WellLaid(l) && |bc.disk| == l.blocks
      ensures this.bc == bc && this.l == l && fresh(block)
      ensures Base() && bc.Clean() && Lh() == [] && outstanding == 0 && !committing
    {
      this.bc, this.l := bc, l;
      block := new nat[LOGSIZE](_ => 0);
      n, outstanding, committing := 0, 0, false;
      new;
      assert block[..n] == [];
    }

    ghost predicate Base()
      reads this, block, bc, bc.buf, bc.next, bc.prev
    {
      && bc.Valid() && WellLaid(l) && |bc.disk| == l.blocks
      && block.Length == LOGSIZE && n <= LOGSIZE
      && block != bc.next && block != bc.prev
      && Loggable(l, block[..n])
    }

    ghost function Lh(): seq<nat>
      requires n <= block.Length
      reads this, block
    {
      block[..n]
    }

    /** Nobody but the log uses its blocks. */
    ghost predicate SlotsFree()
      requires Base()
      reads this, block, bc, bc.buf, bc.next, bc.prev
    {
      forall b: nat {:trigger SlotFree(b)} :: b < l.blocks && InLog(l, b) ==> SlotFree(b)
    }

    ghost predicate SlotFree(b: nat)
      requires b < |bc.w.refs| == |bc.w.held| == |bc.w.view| == |bc.disk|
      reads bc
    {
      bc.w.refs[b] == 0 && !bc.w.held[b] && bc.w.view[b] == bc.disk[b]
    }

    /** Recycling loses nothing and all buffers are of the root device, if it was so before. */
    twostate predicate StaysTidy()
      reads bc, bc.buf
    {
      (old(bc.Clean()) ==> bc.Clean()) && (old(bc.RootOnly()) ==> bc.RootOnly())
    }

    /** Some buffer, or two different ones, can be recycled. */
    ghost predicate Spare(two: bool)
      requires bc.buf.Length == NBUF
      reads bc.buf
    {
      exists i, j ::
        0 <= i < NBUF && 0 <= j < NBUF && (two ==> i != j) && bc.buf[i].refcnt == 0 && bc.buf[j].refcnt == 0
    }

    // Pieces shared by write_log and install_trans

    /** Read log block `x`, then home block `y`. */
    method BreadPair(x: nat, y: nat, pid: nat) returns (bl: int, bh: int)
      requires bc.Valid() && x < |bc.disk| && y < |bc.disk| && x != y
      requires !bc.w.held[x] && !bc.w.held[y]
      modifies bc.buf, bc`handed, bc`w
      ensures bc.Valid() && bl >= -1 && bh >= -1 && StaysTidy()
      ensures old(Spare(true)) ==> bh >= 0
      ensures old(Spare(false)) && old(bc.w.refs[y]) > 0 ==> bh >= 0
      ensures bh >= 0 ==>
        && 0 <= bl < NBUF && 0 <= bh < NBUF && bl != bh
        && bc.w.refs == Got(Got(old(bc.w), ROOTDEV, x), ROOTDEV, y).refs
        && bc.w.held == Got(Got(old(bc.w), ROOTDEV, x), ROOTDEV, y).held
        && Settles(old(bc.w), bc.w, bc.disk)
        && bc.Has(bl) && bc.buf[bl].blockno == x && bc.buf[bl].valid && bc.HoldingSleep(bl, pid)
        && bc.Has(bh) && bc.buf[bh].blockno == y && bc.buf[bh].valid && bc.HoldingSleep(bh, pid)
        && bc.buf[bl].data == old(bc.w.view[x])
        && (old(bc.w.refs[y]) > 0 ==> bc.buf[bh].data == old(bc.w.view[y]))
    {
      bl, bh := -1, -1;
      var waits;
      bl, waits := bc.Bread(x, pid);
      if bl != -1 {
        ghost var w1 := bc.w;
        assert SettlesAt(old(bc.w), w1, bc.disk, y);
        bh, waits := bc.Bread(y, pid);
        if bh != -1 {
          forall n | 0 <= n < |bc.disk| ensures SettlesAt(old(bc.w), bc.w, bc.disk, n) {
            assert SettlesAt(old(bc.w), w1, bc.disk, n) && SettlesAt(w1, bc.w, bc.disk, n);
          }
        }
      }
    }

    /** Give the held buffer `b` new contents and write it out. */
    method StoreAndWrite(b: nat, data: Block, pid: nat) returns (ok: bool)
      requires bc.Valid() && bc.Has(b) && bc.buf[b].valid && bc.HoldingSleep(b, pid)
      modifies bc.buf, bc`w, bc`disk, bc`trace
      ensures bc.Valid() && ok && StaysTidy()
      ensures bc.buf[..] == old(bc.buf[..][b := bc.buf[b].(data := data)])
      ensures bc.w == old(bc.w.(view := bc.w.view[bc.buf[b].blockno := data]))
      ensures bc.disk == old(bc.disk[bc.buf[b].blockno := data]) && bc.trace == old(bc.trace) + [bc.disk]
    {
      bc.Store(b, data);
      ok := bc.Bwrite(b, pid);
    }

    /** Read log block `x` and home block `y`, copy one to the other in the cache
        and write the target out. */
    method CopyThrough(x: nat, y: nat, toLog: bool, pid: nat) returns (bl: int, bh: int)
      requires bc.Valid() && x < |bc.disk| && y < |bc.disk| && x != y
      requires !bc.w.held[x] && !bc.w.held[y] && (toLog ==> bc.w.refs[y] > 0)
      modifies bc.buf, bc`handed, bc`w, bc`disk, bc`trace
      ensures bc.Valid() && bl >= -1 && bh >= -1 && StaysTidy()
      ensures old(Spare(true)) ==> bh >= 0
      ensures old(Spare(false)) && old(bc.w.refs[y]) > 0 ==> bh >= 0
      ensures bh == -1 ==> bc.disk == old(bc.disk) && bc.trace == old(bc.trace)
      ensures bh >= 0 ==>
        && 0 <= bl < NBUF && 0 <= bh < NBUF && bl != bh
        && bc.Has(bl) && bc.buf[bl].blockno == x && bc.HoldingSleep(bl, pid)
        && bc.Has(bh) && bc.buf[bh].blockno == y && bc.HoldingSleep(bh, pid)
        && bc.w.refs == Got(Got(old(bc.w), ROOTDEV, x), ROOTDEV, y).refs
        && bc.w.held == Got(Got(old(bc.w), ROOTDEV, x), ROOTDEV, y).held
        && bc.trace == old(bc.trace) + [bc.disk]
      ensures bh >= 0 ==>
        var to, data := if toLog then x else y, old(bc.w.view[if toLog then y else x]);
        && bc.w.view[to] == data && bc.disk == old(bc.disk)[to := data]
        && SettlesBut(old(bc.w), bc.w, old(bc.disk), to)
    {
      bl, bh := BreadPair(x, y, pid);
      if bh >= 0 {
        ghost var w1 := bc.w;
        var ok;
        if toLog {
          ok := StoreAndWrite(bl, bc.buf[bh].data, pid);
        } else {
          ok := StoreAndWrite(bh, bc.buf[bl].data, pid);
        }
        forall b: nat | b < |bc.disk| && b != (if toLog then x else y)
          ensures SettlesAt(old(bc.w), bc.w, old(bc.disk), b)
        {
          assert SettlesAt(old(bc.w), w1, old(bc.disk), b);
        }
      }
    }

    ghost predicate Droppable(b: nat)
      requires bc.Valid() && bc.Has(b)
      reads bc, bc.buf, bc.next, bc.prev
    {
      var m := bc.buf[b].blockno;
      bc.w.refs[m] > 1 || bc.w.view[m] == bc.disk[m]
    }

    /** Release two held buffers of different blocks, `b1` first. */
    method BrelsePair(b1: nat, b2: nat, pid: nat) returns (ok: bool)
      requires bc.Valid() && bc.Has(b1) && bc.Has(b2) && b1 != b2
      requires bc.buf[b1].blockno != bc.buf[b2].blockno
      requires bc.HoldingSleep(b1, pid) && bc.HoldingSleep(b2, pid)
      modifies bc, bc.buf, bc.next, bc.prev
      ensures bc.Valid() && ok && (old(bc.Clean() && Droppable(b1) && Droppable(b2)) ==> bc.Clean())
      ensures old(bc.RootOnly()) ==> bc.RootOnly()
      ensures bc.disk == old(bc.disk) && bc.trace == old(bc.trace) && bc.w.view == old(bc.w.view)
      ensures old(bc.buf[b1].refcnt) > 0 && old(bc.buf[b2].refcnt) > 0
      ensures bc.buf[b1].refcnt == old(bc.buf[b1].refcnt) - 1
      ensures bc.buf[b2].refcnt == old(bc.buf[b2].refcnt) - 1
      ensures var x, y := old(bc.buf[b1].blockno), old(bc.buf[b2].blockno);
        && bc.w.refs == old(bc.w.refs[x := bc.buf[b1].refcnt - 1][y := bc.buf[b2].refcnt - 1])
        && bc.w.held == old(bc.w.held)[x := false][y := false]
    {
      ok := bc.Brelse(b1, pid);
      assert bc.buf[b2] == old(bc.buf[b2]);
      ok := bc.Brelse(b2, pid);
    }

    // write_log and write_head

    /** The log's blocks stay as they have to be when one of them is written, or some home block
        is, and the cache forgets others. */
    lemma {:induction false} StillFree(w: Blockwise, d: Disk, to: nat)
      requires Base() && |d| == l.blocks == |w.view| == |w.refs| == |w.held|
      requires forall b: nat :: b < l.blocks && InLog(l, b) ==> w.refs[b] == 0 && !w.held[b] && w.view[b] == d[b]
      requires forall b: nat :: b < l.blocks && InLog(l, b) ==> bc.w.refs[b] == 0 && !bc.w.held[b]
      requires SettlesBut(w, bc.w, d, to) && to < l.blocks && bc.disk == d[to := bc.w.view[to]]
      ensures SlotsFree()
    {
      forall b: nat | b < l.blocks && InLog(l, b) ensures SlotFree(b) {
        if b != to {
          assert SettlesAt(w, bc.w, d, b);
        }
      }
    }

    lemma {:induction false} FreeSlots()
      requires Base() && SlotsFree()
      ensures forall b: nat :: b < l.blocks && InLog(l, b) ==>
        bc.w.refs[b] == 0 && !bc.w.held[b] && bc.w.view[b] == bc.disk[b]
    {
      forall b: nat | b < l.blocks && InLog(l, b)
        ensures bc.w.refs[b] == 0 && !bc.w.held[b] && bc.w.view[b] == bc.disk[b]
      {
        assert SlotFree(b);
      }
    }

    static lemma {:induction false} HomeOfBut(l: Layout, w: Blockwise, w': Blockwise, d: Disk, to: nat)
      requires SettlesBut(w, w', d, to) && |d| == l.blocks && InLog(l, to)
      ensures HomeSettles(l, w, w', d)
    {
    }

    /** The log block `to` has been written, or just read, from the state with `w` and `d` on. */
    lemma {:induction false} SlotTouched(w: Blockwise, v: Blockwise, d: Disk, to: nat)
      requires Base() && |d| == l.blocks == |w.view| == |w.refs| == |w.held|
      requires forall b: nat :: b < l.blocks && InLog(l, b) ==> w.refs[b] == 0 && !w.held[b] && w.view[b] == d[b]
      requires bc.w.refs == w.refs && bc.w.held == w.held && bc.w.view == v.view && InLog(l, to)
      requires SettlesBut(w, v, d, to) && bc.disk == d[to := bc.w.view[to]]
      ensures HomeSettles(l, w, bc.w, d) && SlotsFree()
    {
      SettlesSameView(w, v, bc.w, d, to);
      HomeOfBut(l, w, bc.w, d, to);
      StillFree(w, d, to);
    }

    /** One round of write_log: cached contents of a logged block to its slot. */
    method CopyToSlot(tail: nat, pid: nat) returns (ok: bool)
      requires Base() && SlotsFree() && tail < n
      requires bc.w.refs[block[tail]] > 0 && !bc.w.held[block[tail]]
      modifies bc, bc.buf, bc.next, bc.prev
      ensures Base() && (ok ==> SlotsFree()) && StaysTidy()
      ensures old(Spare(false)) ==> ok && Spare(false)
      ensures ok ==>
        && bc.w.refs == old(bc.w.refs) && bc.w.held == old(bc.w.held)
        && HomeSettles(l, old(bc.w), bc.w, old(bc.disk))
        && bc.disk == old(bc.disk)[l.start + tail + 1 := old(bc.w.view)[block[tail]]]
        && bc.trace == old(bc.trace) + [bc.disk]
      ensures !ok ==> bc.disk == old(bc.disk) && bc.trace == old(bc.trace)
    {
      var slot := l.start + tail + 1;
      FreeSlots();
      ok := LogPair(slot, block[tail], pid);
      if ok {
        SlotTouched(old(bc.w), bc.w, old(bc.disk), slot);
      }
    }

    /** Home block `y` to log block `x`. */
    method LogPair(x: nat, y: nat, pid: nat) returns (ok: bool)
      requires bc.Valid() && x < |bc.disk| && y < |bc.disk| && x != y
      requires !bc.w.held[x] && !bc.w.held[y] && bc.w.refs[x] == 0 && bc.w.refs[y] > 0
      modifies bc, bc.buf, bc.next, bc.prev
      ensures bc.Valid() && StaysTidy()
      ensures old(Spare(false)) ==> ok && Spare(false)
      ensures ok ==>
        && bc.w.refs == old(bc.w.refs) && bc.w.held == old(bc.w.held)
        && bc.w.view[x] == old(bc.w.view[y]) && bc.disk == old(bc.disk)[x := old(bc.w.view[y])]
        && SettlesBut(old(bc.w), bc.w, old(bc.disk), x)
        && bc.trace == old(bc.trace) + [bc.disk]
      ensures !ok ==> bc.disk == old(bc.disk) && bc.trace == old(bc.trace)
    {
      var to, from := CopyThrough(x, y, true, pid);
      if from == -1 {
        return false;
      }
      TakenAndDropped(old(bc.w), x, y);
      ghost var w1 := bc.w;
      ok := BrelsePair(from, to, pid);
      SettlesSameView(old(bc.w), w1, bc.w, old(bc.disk), x);
      assert bc.buf[to].refcnt == 0;
    }

    /** write_log: copy every logged block from the cache to its slot. */
    method WriteLog(pid: nat) returns (ok: bool, ghost k: nat)
      requires Base() && SlotsFree()
      requires forall i :: 0 <= i < n ==> bc.w.refs[block[i]] > 0 && !bc.w.held[block[i]]
      modifies bc, bc.buf, bc.next, bc.prev
      ensures Base() && (ok ==> SlotsFree()) && StaysTidy()
      ensures old(Spare(false)) ==> ok && Spare(false)
      ensures k <= n && (ok ==> k == n)
      ensures bc.disk == Logged(l, old(bc.disk), old(bc.w.view), Lh(), k)
      ensures bc.trace == old(bc.trace) + LoggedTrace(l, old(bc.disk), old(bc.w.view), Lh(), k)
      ensures ok ==>
        && HomeSettles(l, old(bc.w), bc.w, old(bc.disk))
        && bc.w.refs == old(bc.w.refs) && bc.w.held == old(bc.w.held)
    {
      ghost var d, w, lh := bc.disk, bc.w, Lh();
      var tail := 0;
      while tail < n
        invariant 0 <= tail <= n && Base() && SlotsFree() && Lh() == lh && StaysTidy()
        invariant old(Spare(false)) ==> Spare(false)
        invariant bc.disk == Logged(l, d, w.view, lh, tail)
        invariant bc.trace == old(bc.trace) + LoggedTrace(l, d, w.view, lh, tail)
        invariant HomeSettles(l, w, bc.w, d)
        invariant bc.w.refs == w.refs && bc.w.held == w.held
      {
        assert block[tail] == lh[tail];
        assert SettlesAt(w, bc.w, d, lh[tail]);
        LoggedHome(l, d, w.view, lh, tail);
        ghost var v, e := bc.w, bc.disk;
        ok := CopyToSlot(tail, pid);
        if !ok {
          return false, tail;
        }
        HomeSettlesOn(l, w, v, bc.w, d, e);
        tail := tail + 1;
      }
      return true, tail;
    }

    /** brelse of a log block that nobody referred to before bread, which brought the cache from `w` to
        `v`. */
    method GiveBack(b: nat, x: nat, pid: nat, ghost w: Blockwise, ghost v: Blockwise, ghost d: Disk)
      requires bc.Valid() && bc.Has(b) && bc.buf[b].blockno == x && bc.HoldingSleep(b, pid)
      requires |w.view| == |w.refs| == |w.held| == |d| == |bc.disk| && Settles(w, v, d) && w.refs[x] == 0 && !w.held[x]
      requires v.refs == w.refs[x := 1] && v.held == w.held[x := true]
      requires bc.w == v.(view := v.view[x := bc.w.view[x]]) && bc.w.view[x] == bc.disk[x]
      modifies bc, bc.buf, bc.next, bc.prev
      ensures bc.Valid() && StaysTidy() && bc.disk == old(bc.disk) && bc.trace == old(bc.trace)
      ensures bc.w == old(bc.w).(refs := w.refs, held := w.held) && SettlesBut(w, bc.w, d, x)
      ensures bc.buf[..] == old(bc.buf[..])[b := bc.buf[b]] && bc.buf[b].refcnt == 0 && Spare(false)
    {
      var ok := bc.Brelse(b, pid);
      TakenAndPut(w, v, bc.w, d, x, bc.w.view[x], true);
      assert bc.buf[b].refcnt == 0;
    }

    /** write_head: the in-memory header to the header block. */
    method WriteHead(pid: nat) returns (ok: bool)
      requires Base() && SlotsFree()
      modifies bc, bc.buf, bc.next, bc.prev
      ensures Base() && (ok ==> SlotsFree()) && StaysTidy()
      ensures old(Spare(false)) ==> ok
      ensures ok ==> Spare(false)
      ensures !ok ==> bc.disk == old(bc.disk) && bc.trace == old(bc.trace)
      ensures ok ==>
        && bc.disk == old(bc.disk)[l.start := SetNumbers(old(bc.disk[l.start]), Lh(), n)]
        && HomeSettles(l, old(bc.w), bc.w, old(bc.disk))
        && bc.trace == old(bc.trace) + [bc.disk]
        && bc.w.refs == old(bc.w.refs) && bc.w.held == old(bc.w.held)
    {
      FreeSlots();
      var b, _ := bc.Bread(l.start, pid);
      if b == -1 {
        return false;
      }
      ghost var w1 := bc.w;
      var hb := FillHeader(bc.buf[b].data);
      ok := StoreAndWrite(b, hb, pid);
      GiveBack(b, l.start, pid, old(bc.w), w1, old(bc.disk));
      SlotTouched(old(bc.w), bc.w, old(bc.disk), l.start);
    }

    /** The loop of write_head over the header block. */
    method FillHeader(b: Block) returns (hb: Block)
      requires n <= block.Length && WellLaid(l) && Loggable(l, Lh())
      ensures hb == SetNumbers(b, Lh(), n)
    {
      hb := SetWord(b, 0, n);
      var i := 0;
      while i < n
        invariant 0 <= i <= n
        invariant hb == SetNumbers(b, Lh(), i)
      {
        hb := SetWord(hb, i + 1, block[i]);
        i := i + 1;
      }
    }

    // read_head and install_trans

    /** read_head: the header block into memory. */
    method ReadHead(pid: nat) returns (ok: bool)
      requires Base() && SlotsFree() && Recoverable(l, bc.disk)
      modifies this`n, block, bc, bc.buf, bc.next, bc.prev
      ensures Base() && (ok ==> SlotsFree()) && StaysTidy()
      ensures bc.disk == old(bc.disk) && bc.trace == old(bc.trace)
      ensures ok ==> Lh() == Numbers(old(bc.disk[l.start]))
      ensures old(Spare(true)) ==> ok && Spare(true)
      ensures ok ==>
        && HomeSettles(l, old(bc.w), bc.w, bc.disk) && bc.w.refs == old(bc.w.refs) && bc.w.held == old(bc.w.held)
    {
      FreeSlots();
      var b, _ := bc.Bread(l.start, pid);
      if b == -1 {
        return false;
      }
      ghost var w1 := bc.w;
      CopyNumbers(bc.buf[b].data);
      ok := true;
      GiveBack(b, l.start, pid, old(bc.w), w1, bc.disk);
      SlotTouched(old(bc.w), bc.w, bc.disk, l.start);
      StillSpare(old(bc.buf[..]), b);
    }

    lemma {:induction false} StillSpare(was: seq<Buf>, b: nat)
      requires bc.buf.Length == NBUF == |was| && b < NBUF && bc.buf[b].refcnt == 0
      requires forall j :: 0 <= j < NBUF && j != b ==> bc.buf[j].refcnt == was[j].refcnt
      ensures (exists i, j :: 0 <= i < NBUF && 0 <= j < NBUF && i != j && was[i].refcnt == 0 && was[j].refcnt == 0) ==>
        Spare(true)
    {
    }

    /** The loop of read_head over the header block. */
    method CopyNumbers(hb: Block)
      requires HeaderReadable(hb) && block.Length == LOGSIZE
      modifies `n, block
      ensures n <= LOGSIZE && Lh() == Numbers(hb)
    {
      n := GetWord(hb, 0);
      var i := 0;
      while i < n
        invariant 0 <= i <= n == GetWord(hb, 0)
        invariant block[..i] == Numbers(hb)[..i]
      {
        block[i] := GetWord(hb, i + 1);
        i := i + 1;
      }
    }

    /** One round of install_trans: a slot to its home block; outside recovery the
        log's pin on the home block is dropped. */
    method InstallOne(tail: nat, recovering: bool, pid: nat) returns (ok: bool)
      requires Base() && SlotsFree() && tail < n && !bc.w.held[block[tail]]
      requires recovering <==> bc.w.refs[block[tail]] == 0
      modifies bc, bc.buf, bc.next, bc.prev
      ensures Base() && (ok ==> SlotsFree()) && StaysTidy()
      ensures old(Spare(recovering)) ==> ok && Spare(recovering)
      ensures ok ==>
        && bc.w.refs == OneLess(old(bc.w.refs), block[tail])
        && bc.w.held == old(bc.w.held)
        && bc.w.view[block[tail]] == old(bc.disk)[l.start + tail + 1]
        && SettlesBut(old(bc.w), bc.w, old(bc.disk), block[tail])
        && bc.disk == old(bc.disk)[block[tail] := old(bc.disk)[l.start + tail + 1]]
        && bc.trace == old(bc.trace) + [bc.disk]
      ensures !ok ==> bc.disk == old(bc.disk) && bc.trace == old(bc.trace)
    {
      FreeSlots();
      ok := InstallPair(l.start + tail + 1, block[tail], recovering, pid);
      if ok {
        StillFree(old(bc.w), old(bc.disk), block[tail]);
      }
    }

    /** Log block `x` to home block `y`. */
    method InstallPair(x: nat, y: nat, recovering: bool, pid: nat) returns (ok: bool)
      requires bc.Valid() && x < |bc.disk| && y < |bc.disk| && x != y
      requires !bc.w.held[x] && !bc.w.held[y] && bc.w.refs[x] == 0 && bc.w.view[x] == bc.disk[x]
      requires recovering <==> bc.w.refs[y] == 0
      modifies bc, bc.buf, bc.next, bc.prev
      ensures bc.Valid() && StaysTidy()
      ensures old(Spare(recovering)) ==> ok && Spare(recovering)
      ensures ok ==>
        && bc.w.refs == OneLess(old(bc.w.refs), y) && bc.w.held == old(bc.w.held)
        && bc.w.view[y] == old(bc.disk)[x] && bc.disk == old(bc.disk)[y := old(bc.disk)[x]]
        && SettlesBut(old(bc.w), bc.w, old(bc.disk), y)
        && bc.trace == old(bc.trace) + [bc.disk]
      ensures !ok ==> bc.disk == old(bc.disk) && bc.trace == old(bc.trace)
    {
      var lbuf, dbuf := CopyThrough(x, y, false, pid);
      if dbuf == -1 {
        return false;
      }
      assert SettlesAt(old(bc.w), bc.w, old(bc.disk), x);
      TakenAndDropped(old(bc.w), x, y);
      ghost var w1 := bc.w;
      ok := ReleaseInstalled(lbuf, dbuf, recovering, pid);
      SettlesSameView(old(bc.w), w1, bc.w, old(bc.disk), y);
      OneLessAfter(old(bc.w.refs), x, y, recovering, bc.w.refs);
      assert bc.buf[lbuf].refcnt == 0 && (recovering ==> bc.buf[dbuf].refcnt == 0);
    }

    /** A slot and a home block taken and released, the home block unpinned as well. */
    static lemma {:induction false} OneLessAfter(refs: seq<nat>, x: nat, y: nat, recovering: bool, refs': seq<nat>)
      requires x < |refs| && y < |refs| && x != y && refs[x] == 0 && (recovering <==> refs[y] == 0)
      requires refs' == refs[x := 0][y := if recovering then 0 else refs[y] - 1]
      ensures refs' == OneLess(refs, y)
    {
    }

    /** The end of a round of install_trans. */
    method ReleaseInstalled(lbuf: nat, dbuf: nat, recovering: bool, pid: nat) returns (ok: bool)
      requires bc.Valid() && bc.Has(lbuf) && bc.Has(dbuf) && lbuf != dbuf
      requires bc.buf[lbuf].blockno != bc.buf[dbuf].blockno
      requires bc.HoldingSleep(lbuf, pid) && bc.HoldingSleep(dbuf, pid)
      requires forall b :: b == bc.buf[lbuf].blockno || b == bc.buf[dbuf].blockno ==> bc.w.view[b] == bc.disk[b]
      requires !recovering ==> bc.buf[dbuf].refcnt > 1
      modifies bc, bc.buf, bc.next, bc.prev
      ensures bc.Valid() && ok && StaysTidy()
      ensures bc.disk == old(bc.disk) && bc.trace == old(bc.trace) && bc.w.view == old(bc.w.view)
      ensures old(bc.buf[lbuf].refcnt) > 0 && old(bc.buf[dbuf].refcnt) > 0
      ensures bc.buf[lbuf].refcnt == old(bc.buf[lbuf].refcnt) - 1
      ensures bc.buf[dbuf].refcnt == old(bc.buf[dbuf].refcnt) - (if recovering then 1 else 2)
      ensures var x, y := old(bc.buf[lbuf].blockno), old(bc.buf[dbuf].blockno);
        && bc.w.refs == old(bc.w.refs[x := bc.buf[lbuf].refcnt - 1]
                                     [y := bc.buf[dbuf].refcnt - (if recovering then 1 else 2)])
        && bc.w.held == old(bc.w.held)[x := false][y := false]
    {
      if !recovering {
        bc.Bunpin(dbuf);
      }
      ok := BrelsePair(lbuf, dbuf, pid);
    }

    /** install_trans: every slot to its home block.  Outside recovery each listed
        block carries the log's pin; in recovery none is referenced. */
    method InstallTrans(recovering: bool, pid: nat) returns (ok: bool, ghost k: nat)
      requires Base() && SlotsFree()
      requires forall i :: 0 <= i < n ==> !bc.w.held[block[i]]
      requires if recovering then Unreferenced(bc.w.refs, Lh()) else Pinned(bc.w.refs, Lh())
      modifies bc, bc.buf, bc.next, bc.prev
      ensures Base() && (ok ==> SlotsFree()) && StaysTidy()
      ensures old(Spare(recovering)) ==> ok && Spare(recovering)
      ensures k <= n && (ok ==> k == n)
      ensures bc.disk == Installed(l, old(bc.disk), Lh(), k)
      ensures bc.trace == old(bc.trace) + InstalledTrace(l, old(bc.disk), Lh(), k)
      ensures ok ==>
        && bc.w.refs == Unpinned(old(bc.w.refs), Lh(), n)
        && bc.w.held == old(bc.w.held)
        && ViewInstalled(l, old(bc.w), bc.w, old(bc.disk), bc.disk, Lh(), n)
    {
      ghost var d, w, lh, t := bc.disk, bc.w, Lh(), bc.trace;
      assert t + [] == t;
      var tail := 0;
      assert InstalledUpTo(d, w, t, lh, 0) by {
        forall b: nat | b < l.blocks && !InLog(l, b) ensures InstalledAt(l, w, bc.w, d, bc.disk, lh, 0, b) {
        }
      }
      while tail < n
        invariant 0 <= tail <= n && Base() && SlotsFree() && Lh() == lh && StaysTidy()
        invariant old(Spare(recovering)) ==> Spare(recovering)
        invariant InstalledUpTo(d, w, t, lh, tail)
      {
        UnpinnedNext(w.refs, lh, tail);
        ok := InstallTurn(tail, recovering, pid, d, w, t, lh);
        if !ok {
          return false, tail;
        }
        tail := tail + 1;
      }
      return true, tail;
    }

    /** The first `k` listed blocks of `lh` have been installed since the disk was `d` and the cache
        showed `w`. */
    ghost predicate InstalledUpTo(d: Disk, w: Blockwise, t: seq<Disk>, lh: seq<nat>, k: nat)
      requires WellLaid(l) && |d| == l.blocks && |w.refs| == l.blocks && Loggable(l, lh) && k <= |lh|
      reads this, bc
    {
      && bc.disk == Installed(l, d, lh, k) && bc.trace == t + InstalledTrace(l, d, lh, k)
      && ViewInstalled(l, w, bc.w, d, bc.disk, lh, k)
      && bc.w.refs == Unpinned(w.refs, lh, k) && bc.w.held == w.held
    }

    method InstallTurn(tail: nat, recovering: bool, pid: nat, ghost d: Disk, ghost w: Blockwise, ghost t: seq<Disk>,
        ghost lh: seq<nat>)
      returns (ok: bool)
      requires Base() && SlotsFree() && tail < n && Lh() == lh && !bc.w.held[block[tail]]
      requires recovering <==> bc.w.refs[block[tail]] == 0
      requires |d| == l.blocks && |w.refs| == l.blocks && InstalledUpTo(d, w, t, lh, tail)
      modifies bc, bc.buf, bc.next, bc.prev
      ensures Base() && (ok ==> SlotsFree()) && (old(Spare(recovering)) ==> ok && Spare(recovering))
      ensures StaysTidy()
      ensures ok ==> InstalledUpTo(d, w, t, lh, tail + 1)
      ensures !ok ==> bc.disk == old(bc.disk) && bc.trace == old(bc.trace)
    {
      InstalledNext(l, d, lh, tail);
      ghost var v, e := bc.w, bc.disk;
      ok := InstallOne(tail, recovering, pid);
      if ok {
        assert bc.trace == t + (InstalledTrace(l, d, lh, tail) + [bc.disk]);
        ViewInstalledNext(l, w, v, bc.w, d, e, bc.disk, lh, tail);
      }
    }

    // Recovery and commit

    /** Empty the header in memory and on disk. */
    method Erase(pid: nat) returns (ok: bool)
      requires Base() && SlotsFree()
      modifies this`n, bc, bc.buf, bc.next, bc.prev
      ensures Base() && (ok ==> SlotsFree()) && Lh() == [] && StaysTidy()
      ensures old(Spare(false)) ==> ok
      ensures !ok ==> bc.disk == old(bc.disk) && bc.trace == old(bc.trace)
      ensures ok ==>
        && bc.disk == old(bc.disk)[l.start := SetNumbers(old(bc.disk[l.start]), [], 0)]
        && HomeSettles(l, old(bc.w), bc.w, old(bc.disk))
        && bc.trace == old(bc.trace) + [bc.disk]
        && bc.w.refs == old(bc.w.refs) && bc.w.held == old(bc.w.held)
    {
      n := 0;
      assert block[..n] == [];
      assert SlotsFree() by {
        forall b: nat | b < l.blocks && InLog(l, b) ensures SlotFree(b) {
          assert old(SlotFree(b));
        }
      }
      ok := WriteHead(pid);
    }

    /** What commit and recover_from_log end with: install_trans, an empty header in
        memory, write_head.  Each block write is one more point from which a crash
        recovers to `after`. */
    method InstallAndErase(recovering: bool, pid: nat, ghost from: nat, ghost c: nat, ghost before: Disk,
        ghost after: Disk)
      returns (ok: bool)
      requires Base() && SlotsFree()
      requires CrashesTo(l, bc.disk, after) && Lh() == Numbers(bc.disk[l.start])
      requires CrashPoints(l, bc.trace, from, c, before, after) && from + c <= |bc.trace|
      requires forall i :: 0 <= i < n ==> !bc.w.held[block[i]]
      requires if recovering then Unreferenced(bc.w.refs, Lh()) else Pinned(bc.w.refs, Lh())
      modifies this`n, bc, bc.buf, bc.next, bc.prev
      ensures Base() && (ok ==> SlotsFree()) && StaysTidy()
      ensures old(Spare(recovering)) ==> ok
      ensures old(bc.trace) <= bc.trace && CrashPoints(l, bc.trace, from, c, before, after)
      ensures ok ==>
        && Lh() == [] && GetWord(bc.disk[l.start], 0) == 0
        && |bc.trace| == |old(bc.trace)| + old(n) + 1
        && SameHome(l, bc.disk, after)
        && ViewInstalled(l, old(bc.w), bc.w, old(bc.disk), bc.disk, old(Lh()), old(n))
        && bc.w.refs == Unpinned(old(bc.w.refs), old(Lh()), old(n)) && bc.w.held == old(bc.w.held)
    {
      ghost var d, w, lh := bc.disk, bc.w, Lh();
      ok := InstallSafely(recovering, pid, from, c, before, after);
      if ok {
        ghost var v, e := bc.w, bc.disk;
        ErasedCrashPoint(l, bc.trace, d, from, c, before, after);
        ok := Erase(pid);
        if ok {
          ViewInstalledOn(l, w, v, bc.w, d, e, bc.disk, lh);
        }
      }
    }

    /** install_trans; a crash after any of its writes recovers the same contents. */
    method InstallSafely(recovering: bool, pid: nat, ghost from: nat, ghost c: nat, ghost before: Disk,
        ghost after: Disk)
      returns (ok: bool)
      requires Base() && SlotsFree()
      requires CrashesTo(l, bc.disk, after) && Lh() == Numbers(bc.disk[l.start])
      requires CrashPoints(l, bc.trace, from, c, before, after) && from + c <= |bc.trace|
      requires forall i :: 0 <= i < n ==> !bc.w.held[block[i]]
      requires if recovering then Unreferenced(bc.w.refs, Lh()) else Pinned(bc.w.refs, Lh())
      modifies bc, bc.buf, bc.next, bc.prev
      ensures Base() && (ok ==> SlotsFree()) && (old(Spare(recovering)) ==> ok && Spare(recovering))
      ensures StaysTidy()
      ensures old(bc.trace) <= bc.trace && CrashPoints(l, bc.trace, from, c, before, after)
      ensures ok ==>
        && |bc.trace| == |old(bc.trace)| + n && bc.disk == Installed(l, old(bc.disk), Lh(), n)
        && bc.w.refs == Unpinned(old(bc.w.refs), Lh(), n) && bc.w.held == old(bc.w.held)
        && ViewInstalled(l, old(bc.w), bc.w, old(bc.disk), bc.disk, Lh(), n)
    {
      ghost var d, t := bc.disk, bc.trace;
      ghost var k;
      ok, k := InstallTrans(recovering, pid);
      InstalledCrashPoints(l, t, d, k, from, c, before, after);
    }

    /** recover_from_log, as initlog runs it on a cache nobody uses yet: replay what
        the header lists, then erase it.  Wherever it is cut short, recovering
        again yields the same home blocks. */
    method RecoverFromLog(pid: nat) returns (ok: bool)
      requires Base() && bc.Clean() && Recoverable(l, bc.disk) && Spare(true)
      requires forall b :: 0 <= b < l.blocks ==> bc.w.refs[b] == 0 && !bc.w.held[b]
      modifies this`n, block, bc, bc.buf, bc.next, bc.prev
      ensures Committable() && bc.Clean() && ok && Lh() == [] && (old(bc.RootOnly()) ==> bc.RootOnly())
      ensures old(bc.trace) <= bc.trace
      ensures var home := Recovered(l, old(bc.disk));
        CrashPoints(l, bc.trace, |old(bc.trace)|, 0, home, home) && SameHome(l, bc.disk, home)
      ensures bc.w.refs == old(bc.w.refs) && bc.w.held == old(bc.w.held) && bc.w.view == bc.disk
    {
      CleanSlots();
      ok := ReadHead(pid);
      ghost var lh, home := Lh(), Recovered(l, bc.disk);
      ok := InstallAndErase(true, pid, |bc.trace|, 0, home, home);
      UnpinnedNone(old(bc.w.refs), lh, |lh|);
      forall b | 0 <= b < l.blocks ensures bc.w.view[b] == bc.disk[b] {
        assert CleanIfFree(bc.disk, bc.w, b);
      }
    }

    lemma {:induction false} CleanSlots()
      requires Base() && bc.Clean() && forall b :: 0 <= b < l.blocks ==> bc.w.refs[b] == 0 && !bc.w.held[b]
      ensures SlotsFree()
    {
      forall b: nat | b < l.blocks && InLog(l, b) ensures SlotFree(b) {
        assert CleanIfFree(bc.disk, bc.w, b);
      }
    }

    /** The state in which end_op calls commit: no transaction is outstanding, so no
        logged buffer is held, each carries the log's pin, and the header on disk is empty. */
    ghost predicate Committable()
      reads this, block, bc, bc.buf, bc.next, bc.prev
    {
      && Base() && SlotsFree() && Pinned(bc.w.refs, Lh())
      && (forall i :: 0 <= i < n ==> !bc.w.held[block[i]])
      && GetWord(bc.disk[l.start], 0) == 0
    }

    /** The first half of commit: fill the slots, then write the header. */
    method LogAndWriteHead(pid: nat) returns (ok: bool)
      requires Committable()
      modifies bc, bc.buf, bc.next, bc.prev
      ensures Base() && StaysTidy()
      ensures old(Spare(false)) ==> ok && Spare(false)
      ensures old(bc.trace) <= bc.trace
      ensures var after := Overlay(old(bc.disk), old(bc.w.view), Lh());
        CrashPoints(l, bc.trace, |old(bc.trace)|, n, old(bc.disk), after) && (ok ==> CrashesTo(l, bc.disk, after))
      ensures ok ==>
        && SlotsFree() && |bc.trace| == |old(bc.trace)| + n + 1
        && Numbers(bc.disk[l.start]) == Lh() && SameHome(l, bc.disk, old(bc.disk))
        && HomeSettles(l, old(bc.w), bc.w, old(bc.disk))
        && bc.w.refs == old(bc.w.refs) && bc.w.held == old(bc.w.held)
    {
      ghost var d, w, lh, t := bc.disk, bc.w, Lh(), bc.trace;
      ghost var k;
      ok, k := WriteLog(pid);
      LoggedCrashPoints(l, t, d, w.view, lh, k, Overlay(d, w.view, lh));
      if !ok {
        return;
      }
      ok := HeadAfterLog(pid, d, w, lh, t);
    }

    /** The header, once the slots are filled. */
    method HeadAfterLog(pid: nat, ghost d: Disk, ghost w: Blockwise, ghost lh: seq<nat>, ghost t: seq<Disk>)
      returns (ok: bool)
      requires Base() && SlotsFree() && Lh() == lh && |d| == |w.view| == l.blocks && GetWord(d[l.start], 0) == 0
      requires bc.disk == Logged(l, d, w.view, lh, |lh|) && bc.trace == t + LoggedTrace(l, d, w.view, lh, |lh|)
      requires HomeSettles(l, w, bc.w, d) && bc.w.refs == w.refs
      requires CrashPoints(l, bc.trace, |t|, n, d, Overlay(d, w.view, lh)) && |bc.trace| == |t| + n
      modifies bc, bc.buf, bc.next, bc.prev
      ensures Base() && StaysTidy()
      ensures old(Spare(false)) ==> ok && Spare(false)
      ensures old(bc.trace) <= bc.trace && CrashPoints(l, bc.trace, |t|, n, d, Overlay(d, w.view, lh))
      ensures ok ==>
        && SlotsFree() && |bc.trace| == |t| + n + 1 && CrashesTo(l, bc.disk, Overlay(d, w.view, lh))
        && Numbers(bc.disk[l.start]) == lh && SameHome(l, bc.disk, d)
        && HomeSettles(l, w, bc.w, d)
        && bc.w.refs == old(bc.w.refs) && bc.w.held == old(bc.w.held)
    {
      LoggedHome(l, d, w.view, lh, |lh|);
      LoggedAt(l, d, w.view, lh, |lh|, l.start);
      ghost var v, e := bc.w, bc.disk;
      ok := WriteHead(pid);
      if ok {
        CommitPoint(l, t, d, w.view, lh, SetNumbers(d[l.start], lh, |lh|));
        HomeSettlesOn(l, w, v, bc.w, d, e);
      }
    }

    /** commit: the logged blocks reach the disk all or nothing.  A crash before the
        header write leaves the old home blocks, from the header write on it leaves
        the cached contents of all logged blocks, whichever block write the crash
        follows and even if a panic cuts the commit short.  Buffers that have been changed and
        not logged are no part of it. */
    method Commit(pid: nat) returns (ok: bool)
      requires Committable()
      modifies this`n, bc, bc.buf, bc.next, bc.prev
      ensures Base() && StaysTidy()
      ensures old(Spare(false)) ==> ok
      ensures old(bc.trace) <= bc.trace
      ensures var after := Overlay(old(bc.disk), old(bc.w.view), old(Lh()));
        && CrashPoints(l, bc.trace, |old(bc.trace)|, old(n), old(bc.disk), after)
        && (ok ==> SameHome(l, bc.disk, after))
      ensures ok ==>
        && Committable() && Lh() == []
        && |bc.trace| == |old(bc.trace)| + (if old(n) == 0 then 0 else 2 * old(n) + 2)
        && HomeSettles(l, old(bc.w), bc.w, old(bc.disk))
        && bc.w.refs == Unpinned(old(bc.w.refs), old(Lh()), old(n)) && bc.w.held == old(bc.w.held)
    {
      if n == 0 {
        assert Lh() == [];
        forall b: nat | b < l.blocks && !InLog(l, b) ensures SettlesAt(bc.w, bc.w, bc.disk, b) {
        }
        return true;
      }
      ok := CommitLogged(pid);
    }

    /** Listed blocks are referenced, so the cache has shown them as they are now on disk. */
    static lemma {:induction false} CommittedViews(l: Layout, w: Blockwise, v: Blockwise, u: Blockwise, d: Disk,
        e: Disk, e': Disk, lh: seq<nat>)
      requires HomeSettles(l, w, v, d) && ViewInstalled(l, v, u, e, e', lh, |lh|) && SameHome(l, d, e)
      requires Pinned(w.refs, lh) && v.refs == w.refs && SameHome(l, e', Overlay(d, w.view, lh))
      ensures HomeSettles(l, w, u, d)
    {
      assert lh[..|lh|] == lh;
      forall b: nat | b < l.blocks && !InLog(l, b) ensures SettlesAt(w, u, d, b) {
        assert SettlesAt(w, v, d, b) && InstalledAt(l, v, u, e, e', lh, |lh|, b);
      }
    }

    /** commit, when there is something to commit. */
    method CommitLogged(pid: nat) returns (ok: bool)
      requires Committable() && n > 0
      modifies this`n, bc, bc.buf, bc.next, bc.prev
      ensures Base() && (ok ==> SlotsFree()) && (old(Spare(false)) ==> ok) && StaysTidy()
      ensures old(bc.trace) <= bc.trace
      ensures var after := Overlay(old(bc.disk), old(bc.w.view), old(Lh()));
        && CrashPoints(l, bc.trace, |old(bc.trace)|, old(n), old(bc.disk), after)
        && (ok ==> SameHome(l, bc.disk, after))
      ensures ok ==>
        && Lh() == [] && GetWord(bc.disk[l.start], 0) == 0
        && |bc.trace| == |old(bc.trace)| + 2 * old(n) + 2
        && HomeSettles(l, old(bc.w), bc.w, old(bc.disk))
        && bc.w.refs == Unpinned(old(bc.w.refs), old(Lh()), old(n)) && bc.w.held == old(bc.w.held)
    {
      ghost var t, d, w, lh := |bc.trace|, bc.disk, bc.w, Lh();
      ok := LogAndWriteHead(pid);
      if ok {
        ghost var v, e := bc.w, bc.disk;
        ok := InstallAndErase(false, pid, t, n, d, Overlay(d, w.view, lh));
        if ok {
          CommittedViews(l, w, v, bc.w, d, e, bc.disk, lh);
        }
      }
    }

    // The interface to file system calls

    /** begin_op with log.lock held: admit the call if no commit runs and the log has
        room for its worst case, else it has to sleep. */
    method TryBeginOp() returns (admitted: bool)
      modifies `outstanding
      ensures admitted <==> !committing && n + (old(outstanding) + 1) * MAXOPBLOCKS <= LOGSIZE
      ensures outstanding == old(outstanding) + (if admitted then 1 else 0)
    {
      if committing {
        return false;
      } else if n + (outstanding + 1) * MAXOPBLOCKS > LOGSIZE {
        return false;
      } else {
        outstanding := outstanding + 1;
        return true;
      }
    }

    /** The first critical section of end_op.  Whoever ends the last call commits;
        `ok` is false where the kernel panics. */
    method EndOp() returns (ok: bool, doCommit: bool)
      requires outstanding > 0
      modifies `outstanding, `committing
      ensures outstanding == old(outstanding) - 1
      ensures ok == !old(committing)
      ensures !ok ==> committing == old(committing) && !doCommit
      ensures ok ==> doCommit == (outstanding == 0) && committing == doCommit
    {
      doCommit := false;
      outstanding := outstanding - 1;
      if committing {
        return false, false;
      }
      if outstanding == 0 {
        doCommit := true;
        committing := true;
      }
      return true, doCommit;
    }

    /** log_write: record the held buffer's block, pinning it the first time. */
    method LogWrite(b: nat) returns (r: LogWriteResult)
      requires Base() && SlotsFree() && Pinned(bc.w.refs, Lh())
      requires bc.Has(b) && bc.buf[b].locked && !InLog(l, bc.buf[b].blockno)
      modifies this`n, block, bc.buf, bc`w
      ensures Base() && SlotsFree() && Pinned(bc.w.refs, Lh()) && StaysTidy()
      ensures r == if old(n) >= LOGSIZE || old(n) >= l.size - 1 then TooBig
                   else if outstanding < 1 then OutsideTrans else Recorded
      ensures r != Recorded ==> Lh() == old(Lh()) && bc.w == old(bc.w) && bc.buf[..] == old(bc.buf[..])
      ensures r == Recorded ==>
        bc.buf[..] == old(bc.buf[..])[b := old(bc.buf[b]).(refcnt := bc.buf[b].refcnt)] && bc.Has(b)
      ensures r == Recorded ==>
        && Lh() == Absorb(old(Lh()), old(bc.buf[b].blockno))
        && bc.w.view == old(bc.w.view) && bc.w.held == old(bc.w.held)
        && bc.w.refs == (if old(bc.buf[b].blockno in Lh()) then old(bc.w.refs)
                         else old(bc.w.refs[bc.buf[b].blockno := bc.w.refs[bc.buf[b].blockno] + 1]))
    {
      if n >= LOGSIZE || n >= l.size - 1 {
        return TooBig;
      }
      if outstanding < 1 {
        return OutsideTrans;
      }
      Record(b);
      return Recorded;
    }

    /** The block's place in the list, or the end of it. */
    method Place(bn: nat) returns (i: nat)
      requires n <= block.Length
      ensures i <= n && bn !in block[..i] && (i < n ==> block[i] == bn)
    {
      i := 0;
      while i < n && block[i] != bn
        invariant 0 <= i <= n && bn !in block[..i]
      {
        i := i + 1;
      }
    }

    /** Puts the block into the list, and pins it if it is new there. */
    method Record(b: nat)
      requires Base() && SlotsFree() && Pinned(bc.w.refs, Lh()) && n < LOGSIZE && n < l.size - 1
      requires bc.Has(b) && bc.buf[b].locked && !InLog(l, bc.buf[b].blockno)
      modifies this`n, block, bc.buf, bc`w
      ensures Base() && SlotsFree() && Pinned(bc.w.refs, Lh()) && StaysTidy()
      ensures bc.buf[..] == old(bc.buf[..])[b := old(bc.buf[b]).(refcnt := bc.buf[b].refcnt)] && bc.Has(b)
      ensures var bn := old(bc.buf[b].blockno);
        && Lh() == Absorb(old(Lh()), bn) && bc.w.view == old(bc.w.view) && bc.w.held == old(bc.w.held)
        && bc.w.refs == if bn in old(Lh()) then old(bc.w.refs) else old(bc.w.refs[bn := bc.w.refs[bn] + 1])
    {
      var bn := bc.buf[b].blockno;
      var i := Place(bn);
      if i == n {
        FreeSlots();
        assert block[..n] == Lh();
        PinAndList(b, bn);
      } else {
        ghost var lh := Lh();
        block[i] := bn;
        assert block[..n] == lh;
      }
    }

    method PinAndList(b: nat, bn: nat)
      requires Base() && SlotsFree() && Pinned(bc.w.refs, Lh()) && n < LOGSIZE && n < l.size - 1
      requires bc.Has(b) && bc.buf[b].locked && bn == bc.buf[b].blockno && !InLog(l, bn) && bn !in Lh()
      modifies this`n, block, bc.buf, bc`w
      ensures Base() && SlotsFree() && Pinned(bc.w.refs, Lh()) && StaysTidy()
      ensures bc.buf[..] == old(bc.buf[..])[b := old(bc.buf[b]).(refcnt := bc.buf[b].refcnt)] && bc.Has(b)
      ensures Lh() == old(Lh()) + [bn] && bc.w.view == old(bc.w.view) && bc.w.held == old(bc.w.held)
      ensures bc.w.refs == old(bc.w.refs[bn := bc.w.refs[bn] + 1])
    {
      FreeSlots();
      bc.Bpin(b);
      forall c: nat | c < l.blocks && InLog(l, c) ensures SlotFree(c) {
      }
      Append(bn);
    }

    method Append(bn: nat)
      requires Base() && SlotsFree() && n < LOGSIZE && n < l.size - 1 && bn < l.blocks && !InLog(l, bn)
      modifies this`n, block
      ensures Base() && SlotsFree() && Lh() == old(Lh()) + [bn]
    {
      ghost var lh := Lh();
      block[n] := bn;
      n := n + 1;
      assert Lh() == lh + [bn];
      forall c: nat | c < l.blocks && InLog(l, c) ensures SlotFree(c) {
        assert old(SlotFree(c));
      }
    }

    // A file system call

    /** Between file system calls, when none is running. */
    ghost predicate AtRest()
      reads this, block, bc, bc.buf, bc.next, bc.prev
    {
      Committable() && n == 0 && outstanding == 0 && !committing
    }

    /** The log's blocks and the pins are as they have to be. */
    ghost predicate Sound()
      reads this, block, bc, bc.buf, bc.next, bc.prev
    {
      Base() && SlotsFree() && Pinned(bc.w.refs, Lh())
    }

    /** bread, for a change of the block. */
    method Take(bno: nat, pid: nat) returns (b: int)
      requires Sound() && bno < l.blocks && !InLog(l, bno) && !bc.w.held[bno]
      modifies bc.buf, bc`handed, bc`w
      ensures Sound() && StaysTidy()
      ensures b == -1 ==> forall j :: 0 <= j < NBUF ==> old(bc.buf[j].refcnt) > 0
      ensures b != -1 ==>
        && 0 <= b < NBUF && bc.Has(b) && bc.buf[b].blockno == bno && bc.buf[b].valid && bc.HoldingSleep(b, pid)
        && bc.w.refs == old(bc.w.refs[bno := bc.w.refs[bno] + 1]) && bc.w.held == old(bc.w.held)[bno := true]
        && Settles(old(bc.w), bc.w, bc.disk)
        && forall j :: 0 <= j < NBUF && j != b ==> bc.buf[j] == old(bc.buf[j])
    {
      FreeSlots();
      var waits;
      b, waits := bc.Bread(bno, pid);
      forall c: nat | c < l.blocks && InLog(l, c) ensures SlotFree(c) {
        assert b != -1 ==> SettlesAt(old(bc.w), bc.w, bc.disk, c);
      }
    }

    /** A change of a buffer, and log_write. */
    method StoreAndLog(b: nat, data: Block)
      requires Sound() && bc.Has(b) && bc.buf[b].valid && bc.buf[b].locked && !InLog(l, bc.buf[b].blockno)
      requires n < LOGSIZE && n < l.size - 1 && outstanding > 0
      modifies this`n, block, bc.buf, bc`w
      ensures Sound() && StaysTidy()
      ensures bc.buf[..] == old(bc.buf[..])[b := old(bc.buf[b]).(data := data, refcnt := bc.buf[b].refcnt)] && bc.Has(b)
      ensures var bno := old(bc.buf[b].blockno);
        && Lh() == Absorb(old(Lh()), bno)
        && bc.w.view == old(bc.w.view)[bno := data] && bc.w.held == old(bc.w.held)
        && bc.w.refs == (if bno in old(Lh()) then old(bc.w.refs) else old(bc.w.refs[bno := bc.w.refs[bno] + 1]))
    {
      ghost var bno := bc.buf[b].blockno;
      FreeSlots();
      bc.Store(b, data);
      forall c: nat | c < l.blocks && InLog(l, c) ensures SlotFree(c) {
      }
      var r := LogWrite(b);
    }

    /** brelse of a logged buffer. */
    method Put(b: nat, pid: nat)
      requires Sound() && bc.Has(b) && bc.HoldingSleep(b, pid) && bc.buf[b].blockno in Lh() && bc.buf[b].refcnt > 1
      modifies bc, bc.buf, bc.next, bc.prev
      ensures Sound() && StaysTidy()
      ensures bc.buf[..] == old(bc.buf[..][b := bc.buf[b].(refcnt := bc.buf[b].refcnt - 1, locked := false, pid := 0)])
      ensures bc.disk == old(bc.disk) && bc.trace == old(bc.trace)
      ensures var bno := bc.buf[b].blockno;
        bc.w == old(bc.w).(refs := old(bc.w.refs[bno := bc.w.refs[bno] - 1]), held := old(bc.w.held)[bno := false])
    {
      FreeSlots();
      var ok := bc.Brelse(b, pid);
      forall c: nat | c < l.blocks && InLog(l, c) ensures SlotFree(c) {
      }
    }

    /** Both. */
    method ChangeAndPut(b: nat, data: Block, pid: nat)
      requires Sound() && bc.Has(b) && bc.buf[b].valid && bc.HoldingSleep(b, pid) && !InLog(l, bc.buf[b].blockno)
      requires n < LOGSIZE && n < l.size - 1 && outstanding > 0
      requires bc.buf[b].blockno in Lh() ==> bc.buf[b].refcnt > 1
      modifies this`n, block, bc, bc.buf, bc.next, bc.prev
      ensures Sound() && StaysTidy() && bc.disk == old(bc.disk) && bc.trace == old(bc.trace)
      ensures forall j :: 0 <= j < NBUF && j != b ==> bc.buf[j].refcnt == old(bc.buf[j].refcnt)
      ensures var bno := old(bc.buf[b].blockno);
        && Lh() == Absorb(old(Lh()), bno)
        && bc.w.view == old(bc.w.view)[bno := data] && bc.w.held == old(bc.w.held)[bno := false]
        && bc.w.refs == if bno in old(Lh()) then old(bc.w.refs[bno := bc.w.refs[bno] - 1]) else old(bc.w.refs)
    {
      StoreAndLog(b, data);
      Put(b, pid);
    }

    /** A call writes one block: bread, a change, log_write, brelse.  False where every buffer is
        in use. */
    method WriteOne(bno: nat, data: Block, pid: nat) returns (ok: bool, ghost b: nat)
      requires Sound() && bno < l.blocks && !InLog(l, bno) && !bc.w.held[bno]
      requires n < LOGSIZE && n < l.size - 1 && outstanding > 0
      modifies this`n, block, bc, bc.buf, bc.next, bc.prev
      ensures Sound() && StaysTidy() && bc.disk == old(bc.disk) && bc.trace == old(bc.trace)
      ensures !ok ==> forall j :: 0 <= j < NBUF ==> old(bc.buf[j].refcnt) > 0
      ensures ok ==>
        && Lh() == Absorb(old(Lh()), bno) && bc.w.held == old(bc.w.held)
        && bc.w.refs == (if old(bno in Lh()) then old(bc.w.refs) else old(bc.w.refs[bno := bc.w.refs[bno] + 1]))
        && bc.w.view[bno] == data && SettlesBut(old(bc.w), bc.w, bc.disk, bno)
        && b < NBUF && forall j :: 0 <= j < NBUF && j != b ==> bc.buf[j].refcnt == old(bc.buf[j].refcnt)
    {
      ghost var w, lh := bc.w, Lh();
      var got := Take(bno, pid);
      if got == -1 {
        return false, 0;
      }
      ok, b := true, got;
      ghost var v := bc.w;
      ChangeAndPut(got, data, pid);
      TakenAndPut(w, v, bc.w, bc.disk, bno, data, bno in lh);
    }

    static lemma {:induction false} TakenAndPut(w: Blockwise, v: Blockwise, u: Blockwise, d: Disk, bno: nat,
        data: Block, listed: bool)
      requires |w.view| == |w.refs| == |w.held| == |d| && bno < |d| && !w.held[bno] && Settles(w, v, d)
      requires v.refs == w.refs[bno := w.refs[bno] + 1] && v.held == w.held[bno := true]
      requires u.view == v.view[bno := data] && u.held == v.held[bno := false]
      requires u.refs == if listed then v.refs[bno := v.refs[bno] - 1] else v.refs
      ensures u.held == w.held && u.view[bno] == data && SettlesBut(w, u, d, bno)
      ensures u.refs == if listed then w.refs else w.refs[bno := w.refs[bno] + 1]
    {
      forall c: nat | c < |d| && c != bno ensures SettlesAt(w, u, d, c) {
        assert SettlesAt(w, v, d, c);
      }
    }

    ghost predicate HomeWrites(ws: seq<(nat, Block)>)
      reads this, bc
    {
      forall i :: 0 <= i < |ws| ==>
        ws[i].0 < l.blocks && !InLog(l, ws[i].0) && ws[i].0 < |bc.w.held| && !bc.w.held[ws[i].0]
    }

    /** The first `k` writes are done, since the cache showed `w` and the disk was `d`. */
    ghost predicate Wrote(ws: seq<(nat, Block)>, k: nat, w: Blockwise, d: Disk)
      requires k <= |ws| && |w.view| == |w.refs| == |d| == l.blocks && forall i :: 0 <= i < |ws| ==> ws[i].0 < |d|
      reads this, block, bc, bc.buf, bc.next, bc.prev
    {
      && Sound() && bc.disk == d && n <= k && bc.w.held == w.held
      && WroteTo(Lh(), bc.w, ws, k, w, d)
    }

    /** Every buffer in use is in `used`. */
    ghost predicate InUse(used: set<nat>)
      requires bc.buf.Length == NBUF
      reads bc.buf
    {
      forall j: nat :: j < NBUF && bc.buf[j].refcnt > 0 ==> j in used
    }

    lemma {:induction false} NoneInUse()
      requires Base() && bc.RootOnly() && forall b :: 0 <= b < l.blocks ==> bc.w.refs[b] == 0
      ensures InUse({})
    {
      forall j: nat | j < NBUF ensures bc.buf[j].refcnt == 0 {
        assert Counted(bc.buf[..], bc.handed, j) && BufferTied(bc.buf[..], bc.handed, bc.disk, bc.w, j);
      }
    }

    lemma {:induction false} FreeBuffer(used: set<nat>)
      requires bc.buf.Length == NBUF && InUse(used) && |used| < NBUF
      ensures Spare(false)
    {
      if forall j: nat :: j < NBUF ==> j in used {
        RangeCount(0, NBUF);
        SubsetCount(Range(0, NBUF), used);
      } else {
        var j: nat :| j < NBUF && j !in used;
        assert bc.buf[j].refcnt == 0;
      }
    }

    /** The next of the writes of a call. */
    method WriteNext(ws: seq<(nat, Block)>, k: nat, pid: nat, ghost w: Blockwise, ghost d: Disk, ghost used: set<nat>)
      returns (ok: bool, ghost used': set<nat>)
      requires |w.view| == |w.refs| == |d| == l.blocks && k < |ws| <= MAXOPBLOCKS && |ws| < l.size && HomeWrites(ws)
      requires Wrote(ws, k, w, d) && outstanding > 0 && InUse(used)
      modifies this`n, block, bc, bc.buf, bc.next, bc.prev
      ensures Sound() && bc.trace == old(bc.trace) && bc.disk == d && StaysTidy()
      ensures !ok ==> |used| >= NBUF
      ensures ok ==> Wrote(ws, k + 1, w, d) && InUse(used') && |used'| <= |used| + 1
    {
      var (bno, data) := ws[k];
      ghost var v, lh, b := bc.w, Lh(), 0;
      ok, b := WriteOne(bno, data, pid);
      used' := used + {b};
      if !ok {
        RangeCount(0, NBUF);
        SubsetCount(Range(0, NBUF), used);
        return;
      }
      ghost var k' := k + 1;
      forall c: nat | c < l.blocks ensures WroteAt(Lh(), bc.w, ws, k', w, d, c) {
        assert WroteAt(lh, v, ws, k, w, d, c);
        assert c != bno ==> SettlesAt(v, bc.w, d, c);
      }
    }

    /** The writes of a call. */
    method WriteAll(ws: seq<(nat, Block)>, pid: nat, ghost used: set<nat>) returns (ok: bool)
      requires Sound() && n == 0 && outstanding > 0 && |ws| <= MAXOPBLOCKS && |ws| < l.size && HomeWrites(ws)
      requires InUse(used)
      modifies this`n, block, bc, bc.buf, bc.next, bc.prev
      ensures Sound() && bc.trace == old(bc.trace) && bc.disk == old(bc.disk) && StaysTidy()
      ensures |used| + |ws| < NBUF ==> ok && Spare(false)
      ensures ok ==> Wrote(ws, |ws|, old(bc.w), old(bc.disk))
    {
      ghost var w, d, u := bc.w, bc.disk, used;
      var k := 0;
      assert Lh() == [];
      WroteNone(ws, w, d);
      while k < |ws|
        invariant k <= |ws| && Wrote(ws, k, w, d) && HomeWrites(ws) && InUse(u) && |u| <= |used| + k
        invariant bc.trace == old(bc.trace) && StaysTidy()
      {
        ok, u := WriteNext(ws, k, pid, w, d, u);
        if !ok {
          return;
        }
        k := k + 1;
      }
      ok := true;
      if |used| + |ws| < NBUF {
        FreeBuffer(u);
      }
    }

    lemma {:induction false} NoneHeld(ws: seq<(nat, Block)>)
      requires Base() && HomeWrites(ws) && forall b: nat :: b in Lh() ==> b in Targets(ws, |ws|)
      ensures forall i :: 0 <= i < n ==> !bc.w.held[block[i]]
    {
      forall i | 0 <= i < n ensures !bc.w.held[block[i]] {
        assert block[i] == Lh()[i];
        var j := TargetOf(ws, |ws|, block[i]);
      }
    }

    /** end_op of the only call. */
    method EndAndCommit(ws: seq<(nat, Block)>, pid: nat, ghost w: Blockwise, ghost d: Disk)
      returns (ok: bool, ghost c: nat)
      requires |w.view| == |w.refs| == |d| == l.blocks && (forall i :: 0 <= i < |ws| ==> ws[i].0 < |d|)
      requires Wrote(ws, |ws|, w, d) && HomeWrites(ws) && GetWord(d[l.start], 0) == 0
      requires outstanding == 1 && !committing
      modifies this, block, bc, bc.buf, bc.next, bc.prev
      ensures old(Spare(false)) ==> ok
      ensures old(bc.trace) <= bc.trace && StaysTidy()
      ensures CrashPoints(l, bc.trace, |old(bc.trace)|, c, d, Applied(d, ws, |ws|))
      ensures ok ==>
        && AtRest() && SameHome(l, bc.disk, Applied(d, ws, |ws|)) && (ws != [] ==> |old(bc.trace)| + c < |bc.trace|)
        && bc.w.refs == w.refs && bc.w.held == w.held && Leaves(l, w, bc.w, d, ws)
    {
      ghost var v, lh := bc.w, Lh();
      c := n;
      NoneHeld(ws);
      WroteAllOf(lh, v, ws, w, d);
      var last;
      ok, last := EndOp();
      ok := Commit(pid);
      if ok {
        committing := false;
        WroteThenSettles(l, lh, v, bc.w, ws, w, d);
      }
    }

    /** A whole file system call: begin_op, some block writes, end_op with its commit.  Cut short
        after any block write, recovery finds all of the writes or none. */
    method Transaction(ws: seq<(nat, Block)>, pid: nat, ghost used: set<nat>) returns (ok: bool, ghost c: nat)
      requires AtRest() && |ws| <= MAXOPBLOCKS && |ws| < l.size && HomeWrites(ws) && InUse(used)
      modifies this, block, bc, bc.buf, bc.next, bc.prev
      ensures |used| + |ws| < NBUF ==> ok
      ensures old(bc.trace) <= bc.trace && |old(bc.disk)| == l.blocks && StaysTidy()
      ensures CrashPoints(l, bc.trace, |old(bc.trace)|, c, old(bc.disk), Applied(old(bc.disk), ws, |ws|))
      ensures ok ==>
        && AtRest() && SameHome(l, bc.disk, Applied(old(bc.disk), ws, |ws|))
        && (ws != [] ==> |old(bc.trace)| + c < |bc.trace|)
        && bc.w.refs == old(bc.w.refs) && bc.w.held == old(bc.w.held)
        && Leaves(l, old(bc.w), bc.w, old(bc.disk), ws)
    {
      ghost var w, d := bc.w, bc.disk;
      c := 0;
      var admitted := TryBeginOp();
      ok := WriteAll(ws, pid, used);
      if ok {
        ok, c := EndAndCommit(ws, pid, w, d);
      }
    }
  }

  /** The boot of a machine: binit and initlog.  The home blocks are what recovery makes of them, and
      the log is ready for file system calls. */
  method InitLog(disk: Disk, l: Layout, pid: nat) returns (log: Log)
    requires Recoverable(l, disk)
    ensures log.AtRest() && log.bc.Clean() && log.l == l
    ensures SameHome(l, log.bc.disk, Recovered(l, disk))
    ensures CrashPoints(l, log.bc.trace, 0, 0, Recovered(l, disk), Recovered(l, disk))
    ensures log.InUse({})
  {
    var bc := new Bcache(disk);
    log := new Log(bc, l);
    log.NoneInUse();
    assert bc.buf[0].refcnt == 0 && bc.buf[1].refcnt == 0;
    var ok := log.RecoverFromLog(pid);
    log.NoneInUse();
  }
}
