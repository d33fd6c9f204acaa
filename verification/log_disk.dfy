/** The on-disk redo log of kernel/log.c as a function of the disk contents: the
    header block, the log slots behind it, and what recovery makes of them.  A
    disk is a sequence of blocks; a block write replaces one element. */
module LogDisk {
  import opened Common
  import opened Blocks

  type Disk = seq<Block>

  /** Where the log lies: header at `start`, slots up to `start + size`. */
  datatype Layout = Layout(start: nat, size: nat, blocks: nat)

  ghost predicate WellLaid(l: Layout) {
    0 < l.size && l.start + l.size <= l.blocks && l.blocks <= 0x8000_0000
  }

  predicate InLog(l: Layout, b: nat) {
    l.start <= b < l.start + l.size
  }

  /** Lists of block numbers a header may carry. */
  ghost predicate Loggable(l: Layout, lh: seq<nat>) {
    && |lh| <= LOGSIZE && |lh| <= l.size - 1
    && forall i :: 0 <= i < |lh| ==> lh[i] < l.blocks && !InLog(l, lh[i])
  }

  // The header block

  /** write_head: the count and that many block numbers; the rest of the block
      keeps what an earlier header left there. */
  function SetNumbers(b: Block, lh: seq<nat>, k: nat): (r: Block)
    requires k <= |lh| <= LOGSIZE
    requires forall i :: 0 <= i < |lh| ==> lh[i] < WORD_LIMIT
  {
    if k == 0 then SetWord(b, 0, |lh|) else SetWord(SetNumbers(b, lh, k - 1), k, lh[k - 1])
  }

  ghost predicate HeaderReadable(b: Block) {
    GetWord(b, 0) <= LOGSIZE
  }

  ghost function Numbers(b: Block): (lh: seq<nat>)
    requires HeaderReadable(b)
  {
    seq(GetWord(b, 0), i requires 0 <= i < GetWord(b, 0) => GetWord(b, i + 1))
  }

  lemma {:induction false} NumbersAfterSet(b: Block, lh: seq<nat>, k: nat, j: nat)
    requires k <= |lh| <= LOGSIZE && j <= LOGSIZE
    requires forall i :: 0 <= i < |lh| ==> lh[i] < WORD_LIMIT
    ensures GetWord(SetNumbers(b, lh, k), j)
         == if j == 0 then |lh| else if j <= k then lh[j - 1] else GetWord(b, j)
  {
    if k == 0 {
      GetAfterSet(b, 0, |lh|, j);
    } else {
      NumbersAfterSet(b, lh, k - 1, j);
      GetAfterSet(SetNumbers(b, lh, k - 1), k, lh[k - 1], j);
    }
  }

  /** Reading a header back gives the list that was written, whatever the block
      held before. */
  lemma {:induction false} HeaderRoundTrip(b: Block, lh: seq<nat>)
    requires |lh| <= LOGSIZE
    requires forall i :: 0 <= i < |lh| ==> lh[i] < WORD_LIMIT
    ensures HeaderReadable(SetNumbers(b, lh, |lh|))
    ensures Numbers(SetNumbers(b, lh, |lh|)) == lh
  {
    NumbersAfterSet(b, lh, |lh|, 0);
    forall i | 0 <= i < |lh| ensures GetWord(SetNumbers(b, lh, |lh|), i + 1) == lh[i] {
      NumbersAfterSet(b, lh, |lh|, i + 1);
    }
  }

  // Block writes of commit and recovery

  /** After the first `k` writes of write_log: slot i holds the cached contents of
      the i-th logged block. */
  ghost function Logged(l: Layout, d: Disk, view: Disk, lh: seq<nat>, k: nat): (r: Disk)
    requires WellLaid(l) && |d| == l.blocks && |view| == l.blocks && Loggable(l, lh) && k <= |lh|
    ensures |r| == |d|
  {
    if k == 0 then d else Logged(l, d, view, lh, k - 1)[l.start + k := view[lh[k - 1]]]
  }

  /** After the first `k` writes of install_trans: slots copied to home blocks. */
  ghost function Installed(l: Layout, d: Disk, lh: seq<nat>, k: nat): (r: Disk)
    requires WellLaid(l) && |d| == l.blocks && Loggable(l, lh) && k <= |lh|
    ensures |r| == |d|
  {
    if k == 0 then d else Installed(l, d, lh, k - 1)[lh[k - 1] := d[l.start + k]]
  }

  /** A disk recovery can read: its header lists home blocks only. */
  ghost predicate Recoverable(l: Layout, d: Disk) {
    && WellLaid(l) && |d| == l.blocks
    && HeaderReadable(d[l.start]) && Loggable(l, Numbers(d[l.start]))
  }

  /** What an uninterrupted recovery leaves in the home blocks. */
  ghost function Recovered(l: Layout, d: Disk): (r: Disk)
    requires Recoverable(l, d)
    ensures |r| == |d|
  {
    var lh := Numbers(d[l.start]);
    Installed(l, d, lh, |lh|)
  }

  ghost predicate SameHome(l: Layout, d: Disk, e: Disk) {
    && |d| == l.blocks && |e| == l.blocks
    && forall b :: 0 <= b < l.blocks && !InLog(l, b) ==> d[b] == e[b]
  }

  /** Crashing in `d` and running recovery yields the home blocks `home`. */
  ghost predicate CrashesTo(l: Layout, d: Disk, home: Disk) {
    Recoverable(l, d) && SameHome(l, Recovered(l, d), home)
  }

  /** The home blocks `d` with the blocks in `lh` taken from `view`. */
  ghost function Overlay(d: Disk, view: Disk, lh: seq<nat>): (r: Disk)
    requires |view| == |d|
    ensures |r| == |d|
  {
    seq(|d|, b requires 0 <= b < |d| => if b in lh then view[b] else d[b])
  }

  // What those writes leave where

  lemma {:induction false} LoggedAt(l: Layout, d: Disk, view: Disk, lh: seq<nat>, k: nat, b: nat)
    requires WellLaid(l) && |d| == l.blocks && |view| == l.blocks && Loggable(l, lh) && k <= |lh|
    requires b < l.blocks
    ensures Logged(l, d, view, lh, k)[b]
         == if l.start < b <= l.start + k then view[lh[b - l.start - 1]] else d[b]
  {
    if k > 0 { LoggedAt(l, d, view, lh, k - 1, b); }
  }

  /** Home blocks outside the list, and the log itself, are untouched. */
  lemma {:induction false} InstalledElsewhere(l: Layout, d: Disk, lh: seq<nat>, k: nat, b: nat)
    requires WellLaid(l) && |d| == l.blocks && Loggable(l, lh) && k <= |lh|
    requires b < l.blocks && b !in lh[..k]
    ensures Installed(l, d, lh, k)[b] == d[b]
  {
    if k > 0 {
      assert lh[k - 1] in lh[..k];
      assert lh[..k - 1] == lh[..k][..k - 1];
      InstalledElsewhere(l, d, lh, k - 1, b);
    }
  }

  lemma {:induction false} InstalledLog(l: Layout, d: Disk, lh: seq<nat>, k: nat)
    requires WellLaid(l) && |d| == l.blocks && Loggable(l, lh) && k <= |lh|
    ensures forall b :: 0 <= b < l.blocks && InLog(l, b) ==> Installed(l, d, lh, k)[b] == d[b]
  {
    forall b | 0 <= b < l.blocks && InLog(l, b) ensures Installed(l, d, lh, k)[b] == d[b] {
      InstalledElsewhere(l, d, lh, k, b);
    }
  }

  /** One more install may as well read the slot from the partly installed disk. */
  lemma {:induction false} InstalledNext(l: Layout, d: Disk, lh: seq<nat>, k: nat)
    requires WellLaid(l) && |d| == l.blocks && Loggable(l, lh) && k < |lh|
    ensures Installed(l, d, lh, k + 1) == Installed(l, d, lh, k)[lh[k] := Installed(l, d, lh, k)[l.start + k + 1]]
  {
    InstalledElsewhere(l, d, lh, k, l.start + k + 1);
  }

  /** Every listed block ends up with the contents of some slot that names it, and
      which slot depends on the list alone. */
  lemma {:induction false} InstalledFrom(l: Layout, d: Disk, e: Disk, lh: seq<nat>, k: nat, b: nat)
    requires WellLaid(l) && |d| == l.blocks && |e| == l.blocks && Loggable(l, lh) && k <= |lh|
    requires b < l.blocks
    requires forall c :: 0 <= c < l.blocks && InLog(l, c) ==> d[c] == e[c]
    requires b !in lh[..k] ==> d[b] == e[b]
    ensures Installed(l, d, lh, k)[b] == Installed(l, e, lh, k)[b]
  {
    if k > 0 && lh[k - 1] != b {
      assert lh[..k] == lh[..k - 1] + [lh[k - 1]];
      InstalledFrom(l, d, e, lh, k - 1, b);
    }
  }

  // Crash points

  /** While the log is being filled the header is still empty, so a crash leaves
      the home blocks as they were. */
  lemma {:induction false} CrashWhileLogging(l: Layout, d: Disk, view: Disk, lh: seq<nat>, k: nat)
    requires WellLaid(l) && |d| == l.blocks && |view| == l.blocks && Loggable(l, lh) && k <= |lh|
    requires GetWord(d[l.start], 0) == 0
    ensures CrashesTo(l, Logged(l, d, view, lh, k), d)
  {
    var e := Logged(l, d, view, lh, k);
    LoggedAt(l, d, view, lh, k, l.start);
    assert Numbers(e[l.start]) == [];
    forall b | 0 <= b < l.blocks && !InLog(l, b) ensures e[b] == d[b] {
      LoggedAt(l, d, view, lh, k, b);
    }
  }

  /** Recovery is idempotent at every intermediate point: after any number of its
      installs, crashing and starting over gives the same home blocks. */
  lemma {:induction false} CrashWhileInstalling(l: Layout, d: Disk, k: nat)
    requires Recoverable(l, d) && k <= |Numbers(d[l.start])|
    ensures CrashesTo(l, Installed(l, d, Numbers(d[l.start]), k), Recovered(l, d))
  {
    var lh := Numbers(d[l.start]);
    var e := Installed(l, d, lh, k);
    InstalledLog(l, d, lh, k);
    forall b | 0 <= b < l.blocks && !InLog(l, b) ensures Recovered(l, e)[b] == Recovered(l, d)[b] {
      if b !in lh {
        InstalledElsewhere(l, d, lh, k, b);
      }
      InstalledFrom(l, d, e, lh, |lh|, b);
    }
  }

  /** Slot i holds the wanted contents of the i-th listed block. */
  ghost predicate SlotsHold(l: Layout, e: Disk, view: Disk, lh: seq<nat>)
    requires WellLaid(l) && |e| == l.blocks && |view| == l.blocks && Loggable(l, lh)
  {
    forall i :: 0 <= i < |lh| ==> SlotHolds(l, e, view, lh, i)
  }

  ghost predicate SlotHolds(l: Layout, e: Disk, view: Disk, lh: seq<nat>, i: nat)
    requires WellLaid(l) && |e| == l.blocks && |view| == l.blocks && Loggable(l, lh) && i < |lh|
  {
    e[l.start + i + 1] == view[lh[i]]
  }

  lemma {:induction false} LoggedSlots(l: Layout, d: Disk, view: Disk, lh: seq<nat>, h: Block)
    requires WellLaid(l) && |d| == l.blocks && |view| == l.blocks && Loggable(l, lh)
    ensures SlotsHold(l, Logged(l, d, view, lh, |lh|)[l.start := h], view, lh)
    ensures SameHome(l, Logged(l, d, view, lh, |lh|)[l.start := h], d)
  {
    var e := Logged(l, d, view, lh, |lh|)[l.start := h];
    forall i | 0 <= i < |lh| ensures SlotHolds(l, e, view, lh, i) {
      LoggedAt(l, d, view, lh, |lh|, l.start + i + 1);
    }
    forall b | 0 <= b < l.blocks && !InLog(l, b) ensures e[b] == d[b] {
      LoggedAt(l, d, view, lh, |lh|, b);
    }
  }

  /** Once the header has reached the disk behind a full log, a crash yields the
      new contents of every logged block. */
  lemma {:induction false} CrashAfterHeader(l: Layout, d: Disk, view: Disk, lh: seq<nat>, h: Block)
    requires WellLaid(l) && |d| == l.blocks && |view| == l.blocks && Loggable(l, lh)
    requires HeaderReadable(h) && Numbers(h) == lh
    ensures CrashesTo(l, Logged(l, d, view, lh, |lh|)[l.start := h], Overlay(d, view, lh))
  {
    LoggedSlots(l, d, view, lh, h);
    CrashesToSlots(l, Logged(l, d, view, lh, |lh|)[l.start := h], d, view, lh);
  }

  /** Recovery from a header listing `lh` with the wanted contents in the slots. */
  lemma {:induction false} CrashesToSlots(l: Layout, e: Disk, d: Disk, view: Disk, lh: seq<nat>)
    requires Recoverable(l, e) && |view| == l.blocks && Numbers(e[l.start]) == lh
    requires SlotsHold(l, e, view, lh) && SameHome(l, e, d)
    ensures CrashesTo(l, e, Overlay(d, view, lh))
  {
    assert lh[..|lh|] == lh;
    forall b | 0 <= b < l.blocks && !InLog(l, b) ensures Recovered(l, e)[b] == Overlay(d, view, lh)[b] {
      InstalledOverlay(l, e, view, lh, |lh|, b);
    }
  }

  lemma {:induction false} InstalledOverlay(l: Layout, e: Disk, view: Disk, lh: seq<nat>, k: nat, b: nat)
    requires WellLaid(l) && |e| == l.blocks && |view| == l.blocks && Loggable(l, lh) && k <= |lh|
    requires SlotsHold(l, e, view, lh)
    requires b < l.blocks && !InLog(l, b)
    ensures Installed(l, e, lh, k)[b] == if b in lh[..k] then view[b] else e[b]
  {
    if k > 0 {
      assert lh[..k] == lh[..k - 1] + [lh[k - 1]];
      assert SlotHolds(l, e, view, lh, k - 1);
      InstalledOverlay(l, e, view, lh, k - 1, b);
    }
  }

  /** Erasing the header after all installs keeps the home blocks. */
  lemma {:induction false} CrashAfterErase(l: Layout, d: Disk, h: Block)
    requires Recoverable(l, d)
    requires GetWord(h, 0) == 0
    ensures CrashesTo(l, Recovered(l, d)[l.start := h], Recovered(l, d))
    ensures SameHome(l, Recovered(l, d)[l.start := h], Recovered(l, d))
  {
    var e := Recovered(l, d)[l.start := h];
    assert Numbers(e[l.start]) == [];
  }
}
