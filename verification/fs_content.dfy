/** File contents as byte strings: what writing part of a block, writing an inode
    back and freeing blocks do to them. */
module FsContent {
  import opened Blocks
  import opened FsDisk
  import opened FsBlocks

  /** `file` with `src` written at `off`, extended if need be. */
  function Splice(file: seq<byte>, off: nat, src: seq<byte>): (r: seq<byte>)
    requires off <= |file|
    ensures |r| == if off + |src| <= |file| then |file| else off + |src|
    ensures forall p: nat :: p < |r| ==> r[p] == if off <= p < off + |src| then src[p - off] else file[p]
  {
    file[..off] + src + if off + |src| <= |file| then file[off + |src|..] else []
  }

  lemma {:induction false} SpliceAppend(file: seq<byte>, off: nat, a: seq<byte>, b: seq<byte>)
    requires off <= |file|
    ensures off + |a| <= |Splice(file, off, a)|
    ensures Splice(Splice(file, off, a), off + |a|, b) == Splice(file, off, a + b)
  {
  }

  /** `file` with `a` written at `off`, and then `b` over what the file holds behind it. */
  function Strayed(file: seq<byte>, off: nat, a: seq<byte>, b: seq<byte>): (r: seq<byte>)
    requires off <= |file|
    ensures |r| == |Splice(file, off, a)|
  {
    var f := Splice(file, off, a);
    Splice(f, off + |a|, b)[..|f|]
  }

  /** Byte `p` of `src`, written at `off`, would change the file. */
  ghost predicate DiffersAt(file: seq<byte>, off: nat, src: seq<byte>, p: nat) {
    p < |src| && off + p < |file| && file[off + p] != src[p]
  }

  lemma {:induction false} StrayedAt(file: seq<byte>, off: nat, src: seq<byte>, a: nat, b: nat, q: nat)
    requires off <= |file| && a <= b <= |src| && q < |Splice(file, off, src[..a])|
    ensures Strayed(file, off, src[..a], src[a..b])[q] ==
      if off + a <= q < off + b then src[q - off] else Splice(file, off, src[..a])[q]
  {
  }

  /** No trace is left of the bytes behind `src[..a]` exactly if there are none, or they start
      where the file ends, or the file held the same bytes. */
  lemma {:induction false} StrayedDiffers(file: seq<byte>, off: nat, src: seq<byte>, a: nat, b: nat)
    requires off <= |file| && a <= b <= |src|
    ensures Strayed(file, off, src[..a], src[a..b]) != Splice(file, off, src[..a]) <==>
      exists p: nat :: a <= p < b && DiffersAt(file, off, src, p)
  {
    var f, g := Splice(file, off, src[..a]), Strayed(file, off, src[..a], src[a..b]);
    if p: nat :| a <= p < b && DiffersAt(file, off, src, p) {
      StrayedAt(file, off, src, a, b, off + p);
    } else if g != f {
      var q: nat :| q < |f| && g[q] != f[q];
      StrayedAt(file, off, src, a, b, q);
      assert DiffersAt(file, off, src, q - off);
    }
  }

  /** How many of `n` bytes at `off` writei counts as written if there is room for them all and
      the first `reach` of them can be copied: those in blocks that are copied completely. */
  function Counted(off: nat, n: nat, reach: nat): nat {
    if reach >= n then n
    else if reach < BSIZE - off % BSIZE then 0
    else reach - (off + reach) % BSIZE
  }

  /** The copy of the piece of a block behind the first `tot` of `n` bytes fails. */
  predicate CopyFails(off: nat, n: nat, reach: nat, tot: nat) {
    tot < n && (reach < n && reach < tot + BSIZE - (off + tot) % BSIZE)
  }

  /** Where a write of `n` bytes at `off` of a file of `len` bytes stops: at the end; where there
      is no block to be had, the disk being `full`; or where a copy fails, which leaves the
      bytes before the failure in the buffer. */
  ghost predicate Stops(full: bool, len: nat, off: nat, n: nat, reach: nat, tot: nat, stray: nat) {
    && tot + stray <= n && (0 < tot < n ==> (off + tot) % BSIZE == 0) && (tot > 0 ==> tot <= reach)
    && (tot == n ==> stray == 0)
    && (tot < n ==>
         || (full && len <= off + tot && stray == 0)
         || (CopyFails(off, n, reach, tot) && stray == if tot < reach then reach - tot else 0))
  }

  /** The number of bytes reported: all that `Counted` says, unless the disk is full and the old
      end of the file has been passed. */
  lemma {:induction false} ReportedCount(full: bool, len: nat, off: nat, n: nat, reach: nat, tot: nat, stray: nat)
    requires Stops(full, len, off, n, reach, tot, stray)
    ensures tot <= Counted(off, n, reach)
    ensures tot < Counted(off, n, reach) ==> full && len <= off + tot && stray == 0
    ensures stray > 0 ==> tot == Counted(off, n, reach) && tot + stray == reach < n
  {
    AlignedBelow(off, n, reach, tot);
  }

  lemma {:induction false} AlignedBelow(off: nat, n: nat, reach: nat, tot: nat)
    requires tot <= n && (0 < tot < n ==> (off + tot) % BSIZE == 0) && (tot > 0 ==> tot <= reach)
    ensures tot <= Counted(off, n, reach)
    ensures CopyFails(off, n, reach, tot) ==> tot == Counted(off, n, reach)
  {
  }

  /** Some byte of the old contents lies in the way of those that are copied and not counted,
      and is a different one. */
  ghost predicate LeavesTrace(file: seq<byte>, off: nat, src: seq<byte>, reach: nat, counted: nat) {
    exists p: nat :: counted <= p < reach && DiffersAt(file, off, src, p)
  }

  /** A write changes the file beyond the bytes that it reports exactly if it leaves such a
      trace: a caller can tell beforehand, from the file, what is to be written, and how much
      of that can be copied. */
  lemma {:induction false} StrayTrace(full: bool, file: seq<byte>, off: nat, src: seq<byte>, reach: nat, tot: nat,
      stray: nat)
    requires off <= |file| && Stops(full, |file|, off, |src|, reach, tot, stray)
    ensures Strayed(file, off, src[..tot], src[tot..tot + stray]) != Splice(file, off, src[..tot]) <==>
      LeavesTrace(file, off, src, reach, Counted(off, |src|, reach))
  {
    AlignedBelow(off, |src|, reach, tot);
    StrayedDiffers(file, off, src, tot, tot + stray);
  }

  /** A block with `src` copied to offset `o`. */
  function Patched(b: Block, o: nat, src: seq<byte>): (r: Block)
    requires o + |src| <= BSIZE
    ensures forall j: nat :: j < BSIZE ==> r[j] == if o <= j < o + |src| then src[j - o] else b[j]
  {
    b[..o] + src + b[o + |src|..]
  }

  lemma {:induction false} PatchedHolds(b: Block, file: seq<byte>, k: nat, o: nat, src: seq<byte>)
    requires o + |src| <= BSIZE && k * BSIZE + o <= |file|
    requires k * BSIZE < |file| ==> BlockHolds(b, file, k)
    ensures BlockHolds(Patched(b, o, src), Splice(file, k * BSIZE + o, src), k)
  {
    var b', file' := Patched(b, o, src), Splice(file, k * BSIZE + o, src);
    forall j: nat | j < BSIZE && k * BSIZE + j < |file'| ensures b'[j] == file'[k * BSIZE + j] {
      assert k * BSIZE + j < |file| && BlockHolds(b, file, k) ==> b[j] == file[k * BSIZE + j];
    }
  }

  lemma {:induction false} OtherHolds(b: Block, file: seq<byte>, k: nat, o: nat, src: seq<byte>, k': nat)
    requires o + |src| <= BSIZE && k * BSIZE + o <= |file| && k' != k
    requires k' * BSIZE < |file| ==> BlockHolds(b, file, k')
    ensures k' * BSIZE < |Splice(file, k * BSIZE + o, src)| ==> k' * BSIZE < |file|
    ensures k' * BSIZE < |Splice(file, k * BSIZE + o, src)| ==> BlockHolds(b, Splice(file, k * BSIZE + o, src), k')
  {
    var file' := Splice(file, k * BSIZE + o, src);
    forall j: nat | j < BSIZE && k' * BSIZE + j < |file'| && k' * BSIZE < |file| ensures b[j] == file'[k' * BSIZE + j] {
      assert k' * BSIZE + j < |file| ==> b[j] == file[k' * BSIZE + j];
    }
  }

  lemma {:induction false} PatchedFile(disk: Disk, row: Row, file: seq<byte>, k: nat, o: nat, src: seq<byte>)
    requires FileOk(disk, row, file) && k < MAXFILE && o + |src| <= BSIZE && k * BSIZE + o <= |file|
    requires row[k] != 0 && row[k] < |disk|
    requires forall k': nat :: k' < MAXFILE && k' != k ==> row[k'] != row[k]
    ensures FileOk(disk[row[k] := Patched(disk[row[k]], o, src)], row, Splice(file, k * BSIZE + o, src))
  {
    var disk' := disk[row[k] := Patched(disk[row[k]], o, src)];
    var file' := Splice(file, k * BSIZE + o, src);
    forall k': nat | k' < MAXFILE ensures Backed(disk', row, file', k') {
      assert Backed(disk, row, file, k');
      if k' == k {
        PatchedHolds(disk[row[k]], file, k, o, src);
      } else if row[k'] < |disk| {
        OtherHolds(disk[row[k']], file, k, o, src, k');
      }
    }
  }

  /** Writing into one data block of inode `i` splices that file and no other. */
  lemma {:induction false} WriteStep(sb: Super, disk: Disk, inode: seq<Inode>, names: Names, owner: Owner,
      files: seq<seq<byte>>, i: nat, k: nat, o: nat, src: seq<byte>)
    requires Core(sb, disk, inode, names, owner, 0, -1) && FilesOk(disk, names, files) && Stored(disk, sb, inode, i)
    requires i < |names| && k < MAXFILE && names[i][k] != 0
    requires o + |src| <= BSIZE && k * BSIZE + o <= |files[i]|
    ensures names[i][k] < |disk|
    ensures Core(sb, disk[names[i][k] := Patched(disk[names[i][k]], o, src)], inode, names, owner, 0, -1)
    ensures FilesOk(disk[names[i][k] := Patched(disk[names[i][k]], o, src)], names,
        files[i := Splice(files[i], k * BSIZE + o, src)])
    ensures Stored(disk[names[i][k] := Patched(disk[names[i][k]], o, src)], sb, inode, i)
  {
    var a := names[i][k];
    assert SlotOwned(names, owner, i, k) && BlockOwned(names, owner, sb, a);
    var disk' := disk[a := Patched(disk[a], o, src)];
    var files' := files[i := Splice(files[i], k * BSIZE + o, src)];
    RowsKept(disk, disk', inode, names, owner, sb, -1);
    BitsKept(disk, disk', sb, owner, 0);
    StoredKept(disk, disk', sb, inode, i);
    forall j: nat | j < |names| ensures FileOk(disk', names[j], files'[j]) {
      forall t: nat | t < MAXFILE && names[j][t] == a ensures j == i && t == k {
        assert SlotOwned(names, owner, j, t);
      }
      if j == i {
        PatchedFile(disk, names[i], files[i], k, o, src);
      } else {
        OtherFile(disk, names, owner, sb, j, files[j], a, disk');
      }
    }
  }

  lemma {:induction false} OtherFile(disk: Disk, names: Names, owner: Owner, sb: Super, j: nat, file: seq<byte>,
      a: nat, disk': Disk)
    requires Owned(names, owner, sb) && j < |names| && FileOk(disk, names[j], file) && |disk| == sb.size
    requires a < |disk| && |disk'| == |disk| && forall b: nat :: b < |disk| && b != a ==> SameAt(disk, disk', b)
    requires forall t: nat :: t < MAXFILE ==> names[j][t] != a
    ensures FileOk(disk', names[j], file)
  {
    forall t: nat | t < MAXFILE && names[j][t] != 0 ensures SameAt(disk, disk', names[j][t]) {
      assert SlotOwned(names, owner, j, t) && BlockOwned(names, owner, sb, names[j][t]);
    }
    FileOkFrame(disk, disk', names[j], file);
  }

  // iupdate

  lemma {:induction false} StoreStep(sb: Super, disk: Disk, inode: seq<Inode>, names: Names, owner: Owner,
      files: seq<seq<byte>>, i: nat)
    requires Core(sb, disk, inode, names, owner, 0, -1) && FilesOk(disk, names, files) && Stored(disk, sb, inode, i)
    requires i < |inode| && InodeFits(inode[i])
    ensures InodeBlock(sb, i) < sb.bmapstart < |disk|
    ensures Core(sb, StoreInode(disk, sb, i, inode[i]), inode, names, owner, 0, -1)
    ensures FilesOk(StoreInode(disk, sb, i, inode[i]), names, files)
    ensures Stored(StoreInode(disk, sb, i, inode[i]), sb, inode, -1)
  {
    var disk' := StoreInode(disk, sb, i, inode[i]);
    forall b | b in owner ensures SameAt(disk, disk', b) {
      assert BlockOwned(names, owner, sb, b);
    }
    RowsKept(disk, disk', inode, names, owner, sb, -1);
    FilesKept(disk, disk', names, owner, sb, files);
    forall b: nat | b < sb.size ensures BitBlock(sb, b) < |disk'| && BitRight(disk', sb, owner, 0, b) {
      BitBlockInMeta(sb, b);
      assert BitRight(disk, sb, owner, 0, b);
    }
    forall j: nat | j < |inode| ensures StoredAt(disk', sb, inode, j) {
      assert j != i ==> StoredAt(disk, sb, inode, j);
      StoredAfterStore(disk, sb, i, inode[i], j);
    }
  }

  // bfree and itrunc

  function Freed(disk: Disk, sb: Super, b: nat): (d: Disk)
    requires BitBlock(sb, b) < |disk| && InUse(disk, sb, b)
    ensures |d| == |disk|
  {
    disk[BitBlock(sb, b) := ClearBit(disk[BitBlock(sb, b)], b % BPB)]
  }

  lemma {:induction false} FreedBits(sb: Super, disk: Disk, owner: Owner, a: nat)
    requires WellLaid(sb) && |disk| == sb.size && BitsRight(disk, sb, owner, 0)
    requires a in owner && sb.Meta() <= a < sb.size
    ensures BitBlock(sb, a) < |disk| && InUse(disk, sb, a)
    ensures BitsRight(Freed(disk, sb, a), sb, owner - {a}, 0)
  {
    assert BitRight(disk, sb, owner, 0, a);
    var disk', owner' := Freed(disk, sb, a), owner - {a};
    forall b: nat | b < sb.size ensures BitBlock(sb, b) < |disk'| && BitRight(disk', sb, owner', 0, b) {
      BitBlockInMeta(sb, b);
      assert BitRight(disk, sb, owner, 0, b);
      MarkedFree(disk, sb, a, b);
    }
  }

  /** Freeing a block of inode `i` while that inode is being emptied. */
  lemma {:induction false} DropStep(sb: Super, disk: Disk, inode: seq<Inode>, names: Names, owner: Owner,
      files: seq<seq<byte>>, i: nat, s: nat)
    requires Core(sb, disk, inode, names, owner, 0, i) && FilesOk(disk, names, files) && Stored(disk, sb, inode, i)
    requires i < |names| && s < SLOTS && names[i][s] != 0 && files[i] == []
    ensures BitBlock(sb, names[i][s]) < |disk| && InUse(disk, sb, names[i][s])
    ensures Core(sb, Freed(disk, sb, names[i][s]), inode, Renamed(names, i, s, 0), owner - {names[i][s]}, 0, i)
    ensures FilesOk(Freed(disk, sb, names[i][s]), Renamed(names, i, s, 0), files)
    ensures Stored(Freed(disk, sb, names[i][s]), sb, inode, i)
  {
    var a := names[i][s];
    assert SlotOwned(names, owner, i, s) && BlockOwned(names, owner, sb, a);
    FreedBits(sb, disk, owner, a);
    var disk', names' := Freed(disk, sb, a), Renamed(names, i, s, 0);
    BitBlockInMeta(sb, a);
    forall b | b in owner ensures SameAt(disk, disk', b) {
      assert BlockOwned(names, owner, sb, b);
    }
    NameDropped(names, owner, sb, i, s);
    RowsKept(disk, disk', inode, names, owner, sb, i);
    FilesKept(disk, disk', names, owner, sb, files);
    DroppedFiles(disk', names, files, i, s);
    StoredKept(disk, disk', sb, inode, i);
  }

  lemma {:induction false} DroppedFiles(disk: Disk, names: Names, files: seq<seq<byte>>, i: nat, s: nat)
    requires FilesOk(disk, names, files) && i < |names| && s < SLOTS && files[i] == []
    ensures FilesOk(disk, Renamed(names, i, s, 0), files)
  {
    var names' := Renamed(names, i, s, 0);
    forall j: nat | j < |names'| ensures FileOk(disk, names'[j], files[j]) {
      assert FileOk(disk, names[j], files[j]);
      forall k: nat | k < MAXFILE ensures Backed(disk, names'[j], files[j], k) {
        assert Backed(disk, names[j], files[j], k);
      }
    }
  }

  /** What is left of the ownership when slots below `s` of inode `i` are dropped. */
  ghost predicate Remaining(owner0: Owner, owner: Owner, i: nat, s: nat) {
    forall b: nat {:trigger b in owner} :: b in owner <==> b in owner0 && !(owner0[b].0 == i && owner0[b].1 < s)
  }

  lemma {:induction false} RemainingNext(owner0: Owner, owner: Owner, owner': Owner, names0: Names, sb: Super, i: nat,
      s: nat)
    requires Owned(names0, owner0, sb) && i < |names0| && s < SLOTS && Remaining(owner0, owner, i, s)
    requires owner' == if names0[i][s] == 0 then owner else owner - {names0[i][s]}
    ensures Remaining(owner0, owner', i, s + 1)
  {
    assert SlotOwned(names0, owner0, i, s);
    forall b: nat ensures b in owner' <==> b in owner0 && !(owner0[b].0 == i && owner0[b].1 < s + 1) {
      if b in owner0 {
        assert BlockOwned(names0, owner0, sb, b);
      }
    }
  }
}
