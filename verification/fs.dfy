/** Blocks and contents of files (kernel/fs.c) over the logical disk that the buffer
    cache and the log provide: `bread` returns the last logged contents of a block,
    `log_write` replaces them and adds the block to the running transaction. */
module Fs {
  import opened Common
  import opened Blocks
  import opened FsDisk
  import opened FsBlocks
  import opened FsContent

  /** No block is free. */
  ghost predicate Full(disk: Disk, sb: Super) {
    forall b: nat :: b < sb.size ==> BitBlock(sb, b) < |disk| && InUse(disk, sb, b)
  }

  /** Row `i` has grown at most by a data block in slot `s` and the indirect block. */
  ghost predicate GrownAt(names: Names, names': Names, i: nat, s: nat) {
    && |names'| == |names|
    && (forall j: nat :: j < |names| && j != i ==> names'[j] == names[j])
    && (i < |names| ==> forall t: nat ::
           t < SLOTS && (names[i][t] != 0 || (t != s && t != INDIRECT)) ==> names'[i][t] == names[i][t])
  }

  /** Same inodes but for the block numbers of inode `i`. */
  ghost predicate SameButAddrs(inode: seq<Inode>, inode': seq<Inode>, i: nat) {
    && |inode'| == |inode| && i < |inode|
    && (forall j: nat :: j < |inode| && j != i ==> inode'[j] == inode[j])
    && inode'[i].kind == inode[i].kind && inode'[i].links == inode[i].links && inode'[i].size == inode[i].size
  }

  /** The indirect block of a row, if there is one. */
  ghost function Indirect(row: Row): set<nat> {
    if row[INDIRECT] == 0 then {} else {row[INDIRECT]}
  }

  ghost predicate InBitmap(sb: Super, bits: set<nat>) {
    forall b :: b in bits ==> sb.bmapstart <= b <= sb.bmapstart + (sb.size - 1) / BPB
  }

  /** Blocks have been logged from the bitmap only. */
  ghost predicate OnlyBitmap(sb: Super, was: set<nat>, log: set<nat>) {
    forall b :: b in log && b !in was ==> sb.bmapstart <= b <= sb.bmapstart + (sb.size - 1) / BPB
  }

  /** Sizes are the lengths of the contents, and no inode names a data block beyond
      its size; except for inode `e`. */
  ghost predicate SizesOk(inode: seq<Inode>, files: seq<seq<byte>>, names: Names, e: int) {
    && |inode| == |files| == |names|
    && forall i: nat :: i < |inode| && i != e ==> SizeOk(inode[i], files[i], names[i])
  }

  ghost predicate SizeOk(n: Inode, file: seq<byte>, row: Row) {
    n.size == |file| && Tight(row, |file|)
  }

  lemma {:induction false} SpliceNone(files: seq<seq<byte>>, i: nat, off: nat, src: seq<byte>)
    requires i < |files| && off <= |files[i]|
    ensures files[i := Splice(files[i], off, src[..0])] == files
  {
    assert Splice(files[i], off, src[..0]) == files[i];
  }

  /** How many blocks `n` bytes at `off` reach into. */
  function Touched(off: nat, n: nat): nat {
    (off % BSIZE + n + BSIZE - 1) / BSIZE
  }

  ghost predicate FreedAt(disk: Disk, disk': Disk, sb: Super, owner: Owner, i: nat, b: nat)
    requires BitBlock(sb, b) < |disk| == |disk'|
  {
    InUse(disk', sb, b) <==> InUse(disk, sb, b) && !(b in owner && owner[b].0 == i)
  }

  /** Exactly the blocks of inode `i` have become free. */
  ghost predicate FreedOnly(disk: Disk, disk': Disk, sb: Super, owner: Owner, i: nat) {
    && |disk| == |disk'| == sb.size
    && forall b: nat :: b < sb.size ==> BitBlock(sb, b) < |disk| && FreedAt(disk, disk', sb, owner, i, b)
  }

  /** Transactions within the limit the log reserves for them. */
  ghost predicate WithinLimit(sb: Super, txs: seq<set<nat>>) {
    forall t :: 0 <= t < |txs| ==> |txs[t]| <= MAXOPBLOCKS && (sb.size <= BPB ==> |txs[t]| <= 7)
  }

  /** How a turn of the loop in writei ends: all is well, there is no block to be had, or the
      copy from user memory has failed. */
  datatype PartResult = Wrote | NoBlock | NoCopy

  /** What a write has logged: blocks of data and of the bitmap, on top of `was`; the indirect
      block was `ind` at first.  `count` blocks have been dealt with, up to byte `upto`. */
  datatype Account = Account(was: set<nat>, data: set<nat>, bits: set<nat>, ind: nat, count: nat, upto: nat)

  /** An open file of type FD_INODE (kernel/file.h). */
  class File {
    const writable: bool
    const inum: nat
    var off: nat

    constructor (writable: bool, inum: nat)
      ensures this.writable == writable && this.inum == inum && off == 0
    {
      this.writable := writable;
      this.inum := inum;
      off := 0;
    }
  }

  /** The most that filewrite writes in one transaction. */
  const CHUNK: nat := 3072

  /** What filewrite writes of `n` bytes at `off`, of which the first `reach` can be copied, if there
      is room: the chunks before the one with the first byte out of reach, and what writei
      counts of that one. */
  function FileCounted(off: nat, n: nat, reach: nat): nat {
    if reach >= n then n
    else
      var i := reach / CHUNK * CHUNK;
      i + Counted(off + i, Min(n - i, CHUNK), reach - i)
  }

  /** writei refuses the chunk that begins with byte `i`. */
  predicate ChunkRefused(len: nat, off: nat, n: nat, i: nat) {
    i <= n && i % CHUNK == 0 && (off > len || off + i + Min(n - i, CHUNK) > MAXFILE * BSIZE)
  }

  /** Where filewrite stops: at the end, on a full disk, at a chunk that is refused, or where a
      copy fails. */
  ghost predicate FileStops(full: bool, len: nat, off: nat, n: nat, reach: nat, done: nat, stray: nat) {
    && done <= FileCounted(off, n, reach) && done + stray <= n && (done == n ==> stray == 0)
    && (done < n ==>
         || (stray == 0 && full && len <= off + done)
         || (stray == 0 && ChunkRefused(len, off, n, done))
         || (reach < n && done == FileCounted(off, n, reach) && stray == (if done < reach then reach - done else 0)
             && !ChunkRefused(len, off, n, reach / CHUNK * CHUNK)))
  }

  lemma {:induction false} ChunkAt(reach: nat, i: nat)
    requires i % CHUNK == 0 && i <= reach < i + CHUNK
    ensures reach / CHUNK * CHUNK == i
  {
  }

  lemma {:induction false} WholeChunks(off: nat, n: nat, reach: nat, i: nat)
    requires i <= n && i <= reach && (i % CHUNK == 0 || i == n)
    ensures i <= FileCounted(off, n, reach)
  {
  }

  /** A copy fails in the chunk that begins with byte `i`. */
  lemma {:induction false} ChunkCopyFails(full: bool, len: nat, off: nat, n: nat, reach: nat, i: nat, r: nat)
    requires i < n && i % CHUNK == 0 && i <= reach < i + Min(n - i, CHUNK) && !ChunkRefused(len, off, n, i)
    requires r == Counted(off + i, Min(n - i, CHUNK), reach - i) && r < Min(n - i, CHUNK)
    ensures FileStops(full, len, off, n, reach, i + r, if i + r < reach then reach - (i + r) else 0)
  {
    ChunkAt(reach, i);
  }

  /** There is no block for it. */
  lemma {:induction false} ChunkNoBlock(len: nat, off: nat, n: nat, reach: nat, i: nat, r: nat)
    requires i < n && i % CHUNK == 0 && i <= reach && len <= off + i + r
    requires r < Min(n - i, CHUNK) && r <= Counted(off + i, Min(n - i, CHUNK), reach - i)
    ensures FileStops(true, len, off, n, reach, i + r, 0)
  {
    if reach < i + Min(n - i, CHUNK) {
      ChunkAt(reach, i);
    } else {
      WholeChunks(off, n, reach, i + Min(n - i, CHUNK));
    }
  }

  lemma {:induction false} ChunkStops(full: bool, len0: nat, len: nat, off: nat, n: nat, reach: nat, i: nat, r: nat,
      stray: nat)
    requires i < n && i % CHUNK == 0 && i <= reach && len0 <= len && !ChunkRefused(len0, off, n, i)
    requires r < Min(n - i, CHUNK) && Stops(full, len, off + i, Min(n - i, CHUNK), reach - i, r, stray)
    ensures FileStops(full, len0, off, n, reach, i + r, stray)
  {
    var n1 := Min(n - i, CHUNK);
    AlignedBelow(off + i, n1, reach - i, r);
    if CopyFails(off + i, n1, reach - i, r) && stray == (if r < reach - i then reach - i - r else 0) {
      ChunkCopyFails(full, len0, off, n, reach, i, r);
    } else {
      ChunkNoBlock(len0, off, n, reach, i, r);
    }
  }

  lemma {:induction false} RefusedLater(len: nat, off: nat, n: nat, i: nat, c: nat)
    requires c <= n && c % CHUNK == 0 && ChunkRefused(len, off, n, i) && i <= c
    ensures ChunkRefused(len, off, n, c)
  {
  }

  lemma {:induction false} ChunkBefore(n: nat, reach: nat, i: nat)
    requires reach < n && i % CHUNK == 0 && i <= reach
    ensures var c := reach / CHUNK * CHUNK; i <= c <= n && c % CHUNK == 0
  {
  }

  /** If some byte lies in the way of those that are copied and not counted, and its chunk is not
      refused, filewrite gets there. */
  lemma {:induction false} GetsThere(full: bool, len: nat, off: nat, n: nat, reach: nat, done: nat, stray: nat, p: nat)
    requires FileStops(full, len, off, n, reach, done, stray)
    requires FileCounted(off, n, reach) <= p < reach && p < n && off + p < len
    requires !ChunkRefused(len, off, n, reach / CHUNK * CHUNK)
    ensures done == FileCounted(off, n, reach) && done + stray == reach
  {
    if ChunkRefused(len, off, n, done) {
      ChunkBefore(n, reach, done);
      RefusedLater(len, off, n, done, reach / CHUNK * CHUNK);
    }
  }

  /** What filewrite does beyond the bytes by which it moves the offset. */
  ghost predicate FileLeavesTrace(file: seq<byte>, off: nat, src: seq<byte>, reach: nat) {
    && !ChunkRefused(|file|, off, |src|, reach / CHUNK * CHUNK)
    && LeavesTrace(file, off, src, reach, FileCounted(off, |src|, reach))
  }

  lemma {:induction false} TraceFound(full: bool, file: seq<byte>, off: nat, src: seq<byte>, reach: nat, done: nat,
      stray: nat)
    requires FileStops(full, |file|, off, |src|, reach, done, stray) && FileLeavesTrace(file, off, src, reach)
    ensures exists p: nat :: done <= p < done + stray && DiffersAt(file, off, src, p)
  {
    var p: nat :| FileCounted(off, |src|, reach) <= p < reach && DiffersAt(file, off, src, p);
    GetsThere(full, |file|, off, |src|, reach, done, stray, p);
  }

  lemma {:induction false} TraceForetold(full: bool, file: seq<byte>, off: nat, src: seq<byte>, reach: nat, done: nat,
      stray: nat, p: nat)
    requires FileStops(full, |file|, off, |src|, reach, done, stray)
    requires done <= p < done + stray && DiffersAt(file, off, src, p)
    ensures FileLeavesTrace(file, off, src, reach)
  {
  }

  /** filewrite changes the file beyond the bytes by which it has moved the offset exactly if it
      does not refuse the chunk with the first byte out of reach, and leaves a trace there. */
  lemma {:induction false} FileTrace(full: bool, file: seq<byte>, off: nat, src: seq<byte>, reach: nat, done: nat,
      stray: nat)
    requires off <= |file| && FileStops(full, |file|, off, |src|, reach, done, stray)
    ensures Strayed(file, off, src[..done], src[done..done + stray]) != Splice(file, off, src[..done]) <==>
      FileLeavesTrace(file, off, src, reach)
  {
    StrayedDiffers(file, off, src, done, done + stray);
    if FileLeavesTrace(file, off, src, reach) {
      TraceFound(full, file, off, src, reach, done, stray);
    }
    if p: nat :| done <= p < done + stray && DiffersAt(file, off, src, p) {
      TraceForetold(full, file, off, src, reach, done, stray, p);
    }
  }

  function Empty(): Inode {
    Inode(0, 0, 0, seq<nat>(NDIRECT + 1, _ => 0))
  }

  ghost predicate MarkedAt(disk: Disk, sb: Super, n: nat, c: nat) {
    BitBlock(sb, c) < |disk| && (InUse(disk, sb, c) <==> c < n)
  }

  ghost predicate MarkedBelow(disk: Disk, sb: Super, n: nat) {
    forall c: nat :: c < sb.size ==> MarkedAt(disk, sb, n, c)
  }

  lemma {:induction false} MarkedOne(disk: Disk, sb: Super, b: nat)
    requires WellLaid(sb) && |disk| == sb.size && b < sb.size && MarkedBelow(disk, sb, b)
    ensures BitBlock(sb, b) < |disk| && !InUse(disk, sb, b)
    ensures MarkedBelow(disk[BitBlock(sb, b) := SetBit(disk[BitBlock(sb, b)], b % BPB)], sb, b + 1)
  {
    assert MarkedAt(disk, sb, b, b);
    var disk' := disk[BitBlock(sb, b) := SetBit(disk[BitBlock(sb, b)], b % BPB)];
    var n := b + 1;
    forall c: nat | c < sb.size ensures MarkedAt(disk', sb, n, c) {
      assert MarkedAt(disk, sb, b, c);
      MarkedInUse(disk, sb, b, c);
    }
  }

  /** A zeroed disk: empty inodes, and every block free. */
  lemma {:induction false} Blank(disk: Disk, sb: Super, inode: seq<Inode>)
    requires WellLaid(sb) && |disk| == sb.size && |inode| == sb.ninodes
    requires forall b :: 0 <= b < |disk| ==> disk[b] == Zeroed()
    requires forall i :: 0 <= i < |inode| ==> inode[i] == Empty()
    ensures Stored(disk, sb, inode, -1) && MarkedBelow(disk, sb, 0)
  {
    forall i: nat | i < |inode| ensures StoredAt(disk, sb, inode, i) {
      ZeroedInode(disk, sb, i);
    }
    forall b: nat | b < sb.size ensures MarkedAt(disk, sb, 0, b) {
      BitBlockInMeta(sb, b);
      ZeroBit(b % BPB % 8);
    }
  }

  lemma {:induction false} ZeroBit(k: nat)
    ensures !BitOf(0, k)
  {
    if k > 0 {
      ZeroBit(k - 1);
    }
  }

  lemma {:induction false} ZeroedInode(disk: Disk, sb: Super, i: nat)
    requires InodeBlock(sb, i) < |disk| && disk[InodeBlock(sb, i)] == Zeroed()
    ensures StoredInode(disk, sb, i) == Empty()
  {
    assert StoredInode(disk, sb, i).addrs == Empty().addrs;
  }

  class FileSystem {
    const sb: Super
    var disk: Disk                  // the logical disk
    var inode: seq<Inode>           // in-core inodes, by number
    ghost var names: Names          // the blocks named by each inode
    ghost var owner: Owner          // the slot that names each block
    ghost var files: seq<seq<byte>> // the contents of each inode
    ghost var logged: set<nat>      // blocks in the running transaction

    /** In the middle of an operation on inode `i`. */
    ghost predicate Busy(i: nat)
      reads this
    {
      && Core(sb, disk, inode, names, owner, 0, -1) && i < |inode|
      && FilesOk(disk, names, files) && Stored(disk, sb, inode, i)
    }

    /** Between operations. */
    ghost predicate Valid()
      reads this
    {
      && Core(sb, disk, inode, names, owner, 0, -1)
      && FilesOk(disk, names, files) && Stored(disk, sb, inode, -1)
      && SizesOk(inode, files, names, -1)
    }

    // mkfs

    /** An empty file system: inodes without blocks, and the metadata in use. */
    constructor (sb: Super)
      requires WellLaid(sb)
      ensures Valid() && this.sb == sb && |files| == sb.ninodes && forall i: nat :: i < |files| ==> files[i] == []
      ensures owner == map[] && forall b: nat :: b < sb.size ==> MarkedAt(disk, sb, sb.Meta(), b)
    {
      this.sb := sb;
      disk := seq(sb.size, _ => Zeroed());
      inode := seq(sb.ninodes, _ => Empty());
      names := seq(sb.ninodes, _ => seq(SLOTS, _ => 0));
      owner := map[];
      files := seq(sb.ninodes, _ => []);
      logged := {};
      new;
      Blank(disk, sb, inode);
      MarkMeta();
      forall i: nat | i < |inode| ensures RowTied(disk, inode[i], names[i]) {
        forall s: nat | s < SLOTS ensures SlotTied(disk, inode[i], names[i], s) {
        }
      }
      forall c: nat | c < sb.size ensures BitBlock(sb, c) < |disk| && BitRight(disk, sb, owner, 0, c) {
        assert MarkedAt(disk, sb, sb.Meta(), c);
      }
    }

    /** Marks the metadata in use. */
    method MarkMeta()
      requires WellLaid(sb) && |disk| == sb.size && |inode| == sb.ninodes && Stored(disk, sb, inode, -1)
      requires MarkedBelow(disk, sb, 0)
      modifies `disk, `logged
      ensures |disk| == sb.size && Stored(disk, sb, inode, -1) && MarkedBelow(disk, sb, sb.Meta())
    {
      var b := 0;
      while b < sb.Meta()
        invariant b <= sb.Meta() && |disk| == sb.size && Stored(disk, sb, inode, -1) && MarkedBelow(disk, sb, b)
      {
        BitBlockInMeta(sb, b);
        ghost var before := disk;
        MarkedOne(disk, sb, b);
        Mark(b);
        StoredKept(before, disk, sb, inode, -1);
        b := b + 1;
      }
    }

    // balloc

    method Balloc() returns (r: nat)
      requires WellLaid(sb) && |disk| == sb.size && BitsRight(disk, sb, owner, 0)
      modifies `disk, `logged
      ensures r == 0 ==> disk == old(disk) && logged == old(logged) && Full(disk, sb)
      ensures r != 0 ==> sb.Meta() <= r < sb.size && BitBlock(sb, r) < |old(disk)| && !InUse(old(disk), sb, r)
      ensures r != 0 ==> disk == Allocated(old(disk), sb, r) && logged == old(logged) + {BitBlock(sb, r), r}
    {
      var b := 0;
      while b < sb.size
        invariant b % BPB == 0 && disk == old(disk) && logged == old(logged)
        invariant forall c: nat :: c < b && c < sb.size ==> BitBlock(sb, c) < |disk| && InUse(disk, sb, c)
      {
        r := ScanBlock(b);
        if r < b + BPB && r < sb.size {
          assert BitRight(disk, sb, owner, 0, r);
          Mark(r);
          Bzero(r);
          return;
        }
        b := b + BPB;
      }
      r := 0;
    }

    /** The inner loop of balloc: the first clear bit of a bitmap block, below the
        end of the disk. */
    method ScanBlock(b: nat) returns (r: nat)
      requires WellLaid(sb) && |disk| == sb.size && b < sb.size && b % BPB == 0
      ensures b <= r <= b + BPB && r <= sb.size
      ensures r < b + BPB && r < sb.size ==> BitBlock(sb, r) < |disk| && !InUse(disk, sb, r)
      ensures forall c: nat :: b <= c < r ==> BitBlock(sb, c) < |disk| && InUse(disk, sb, c)
    {
      BitBlockInMeta(sb, b);
      var data, bi := disk[BitBlock(sb, b)], 0;
      while bi < BPB && b + bi < sb.size
        invariant bi <= BPB && b + bi <= sb.size
        invariant forall c: nat :: b <= c < b + bi ==> BitBlock(sb, c) < |disk| && InUse(disk, sb, c)
      {
        InScan(b, bi);
        if !GetBit(data, bi) {
          return b + bi;
        }
        bi := bi + 1;
      }
      r := b + bi;
    }

    lemma {:induction false} InScan(b: nat, bi: nat)
      requires b % BPB == 0 && bi < BPB
      ensures BitBlock(sb, b + bi) == BitBlock(sb, b) && (b + bi) % BPB == bi
    {
    }

    method Mark(r: nat)
      requires WellLaid(sb) && |disk| == sb.size && r < sb.size && BitBlock(sb, r) < |disk| && !InUse(disk, sb, r)
      modifies `disk, `logged
      ensures disk == old(disk[BitBlock(sb, r) := SetBit(disk[BitBlock(sb, r)], r % BPB)])
      ensures logged == old(logged) + {BitBlock(sb, r)}
    {
      disk := disk[BitBlock(sb, r) := SetBit(disk[BitBlock(sb, r)], r % BPB)];
      logged := logged + {BitBlock(sb, r)};
    }

    method Bzero(r: nat)
      requires r < |disk|
      modifies `disk, `logged
      ensures disk == old(disk)[r := Zeroed()] && logged == old(logged) + {r}
    {
      disk := disk[r := Zeroed()];
      logged := logged + {r};
    }

    // bmap

    /** Allocates a block for data slot `bn` of inode `i`, which has a place for its
        number. */
    method NewBlock(i: nat) returns (a: nat, ghost bits: set<nat>)
      requires Busy(i)
      modifies `disk, `logged
      ensures a == 0 ==> disk == old(disk) && logged == old(logged) && Full(disk, sb) && Busy(i) && bits == {}
      ensures a != 0 ==> Core(sb, disk, inode, names, owner, a, -1) && FilesOk(disk, names, files)
      ensures a != 0 ==> Stored(disk, sb, inode, i)
      ensures a != 0 ==> a < |disk| && disk[a] == Zeroed() && logged == old(logged) + bits + {a}
      ensures |bits| <= 1 && InBitmap(sb, bits) && (a == 0 ==> bits == {})
    {
      a := Balloc();
      bits := {};
      if a != 0 {
        AllocStep(sb, old(disk), inode, names, owner, files, i, a);
        bits := {BitBlock(sb, a)};
      }
    }

    /** The block for data slot `bn`, allocated if there is none; 0 if the disk is full. */
    method Bmap(i: nat, bn: nat) returns (addr: nat, ghost bits: set<nat>)
      requires Busy(i) && bn < MAXFILE
      modifies `disk, `logged, `inode, `names, `owner
      ensures Busy(i) && addr == names[i][bn] && (addr == 0 ==> Full(disk, sb))
      ensures GrownAt(old(names), names, i, bn) && SameButAddrs(old(inode), inode, i)
      ensures old(names[i][bn]) != 0 ==> disk == old(disk) && inode == old(inode) && names == old(names)
      ensures old(names[i][bn]) != 0 ==> owner == old(owner) && logged == old(logged) && bits == {}
      ensures logged <= old(logged) + bits + Indirect(names[i]) + {addr}
      ensures addr == 0 ==> logged <= old(logged) + bits + Indirect(names[i])
      ensures InBitmap(sb, bits)
      ensures |bits| <= (if old(names[i][bn]) == 0 && addr != 0 then 1 else 0) +
          (if old(names[i][INDIRECT]) != names[i][INDIRECT] then 1 else 0)
    {
      assert RowTied(disk, inode[i], names[i]);
      assert SlotTied(disk, inode[i], names[i], bn);
      if bn < NDIRECT {
        addr := inode[i].addrs[bn];
        bits := {};
        if addr == 0 {
          addr, bits := NewBlock(i);
          if addr == 0 {
            return;
          }
          NameDirect(i, bn, addr);
        }
        return;
      }
      addr, bits := BmapIndirect(i, bn);
    }

    method NameDirect(i: nat, s: nat, a: nat)
      requires Core(sb, disk, inode, names, owner, a, -1) && FilesOk(disk, names, files) && Stored(disk, sb, inode, i)
      requires a != 0 && i < |inode| && s < NDIRECT && names[i][s] == 0
      modifies `inode, `names, `owner
      ensures Busy(i) && names == Renamed(old(names), i, s, a) && SameButAddrs(old(inode), inode, i)
    {
      assert RowTied(disk, inode[i], names[i]);
      DirectStep(sb, disk, inode, names, owner, files, i, s, a);
      inode := WithAddr(inode, i, s, a);
      names := Renamed(names, i, s, a);
      owner := owner[a := (i, s)];
    }

    method BmapIndirect(i: nat, bn: nat) returns (addr: nat, ghost bits: set<nat>)
      requires Busy(i) && NDIRECT <= bn < MAXFILE
      modifies `disk, `logged, `inode, `names, `owner
      ensures Busy(i) && addr == names[i][bn] && (addr == 0 ==> Full(disk, sb))
      ensures GrownAt(old(names), names, i, bn) && SameButAddrs(old(inode), inode, i)
      ensures old(names[i][bn]) != 0 ==> disk == old(disk) && inode == old(inode) && names == old(names)
      ensures old(names[i][bn]) != 0 ==> owner == old(owner) && logged == old(logged) && bits == {}
      ensures logged <= old(logged) + bits + Indirect(names[i]) + {addr}
      ensures addr == 0 ==> logged <= old(logged) + bits + Indirect(names[i])
      ensures InBitmap(sb, bits)
      ensures |bits| <= (if old(names[i][bn]) == 0 && addr != 0 then 1 else 0) +
          (if old(names[i][INDIRECT]) != names[i][INDIRECT] then 1 else 0)
    {
      ghost var b1, b2;
      addr, b1 := IndirectBlock(i, bn);
      bits := b1;
      if addr == 0 {
        return;
      }
      addr, b2 := IndirectEntry(i, bn);
      bits := b1 + b2;
    }

    /** Loads the indirect block, allocating it if necessary. */
    method IndirectBlock(i: nat, ghost bn: nat) returns (addr: nat, ghost bits: set<nat>)
      requires Busy(i) && NDIRECT <= bn < MAXFILE
      modifies `disk, `logged, `inode, `names, `owner
      ensures Busy(i) && addr == names[i][INDIRECT] && (addr == 0 ==> Full(disk, sb))
      ensures GrownAt(old(names), names, i, INDIRECT) && SameButAddrs(old(inode), inode, i)
      ensures old(names[i][INDIRECT]) != 0 ==> disk == old(disk) && inode == old(inode) && names == old(names)
      ensures old(names[i][INDIRECT]) != 0 ==> owner == old(owner) && logged == old(logged) && bits == {}
      ensures old(names[i][bn]) != 0 ==> old(names[i][INDIRECT]) != 0
      ensures logged <= old(logged) + bits + Indirect(names[i])
      ensures InBitmap(sb, bits) && |bits| <= if old(names[i][INDIRECT]) != addr then 1 else 0
    {
      assert RowTied(disk, inode[i], names[i]);
      assert SlotTied(disk, inode[i], names[i], INDIRECT);
      assert SlotTied(disk, inode[i], names[i], bn);
      addr := inode[i].addrs[NDIRECT];
      bits := {};
      if addr == 0 {
        addr, bits := NewBlock(i);
        if addr == 0 {
          return;
        }
        IndirectStep(sb, disk, inode, names, owner, files, i, addr);
        inode := WithAddr(inode, i, NDIRECT, addr);
        names := Renamed(names, i, INDIRECT, addr);
        owner := owner[addr := (i, INDIRECT)];
      }
    }

    /** Looks up an entry of the indirect block, filling it if necessary. */
    method IndirectEntry(i: nat, bn: nat) returns (addr: nat, ghost bits: set<nat>)
      requires Busy(i) && NDIRECT <= bn < MAXFILE && names[i][INDIRECT] != 0
      modifies `disk, `logged, `names, `owner
      ensures Busy(i) && addr == names[i][bn] && (addr == 0 ==> Full(disk, sb))
      ensures GrownAt(old(names), names, i, bn) && names[i][INDIRECT] == old(names[i][INDIRECT])
      ensures old(names[i][bn]) != 0 ==> disk == old(disk) && names == old(names) && owner == old(owner)
      ensures old(names[i][bn]) != 0 ==> logged == old(logged) && bits == {}
      ensures logged <= old(logged) + bits + Indirect(names[i]) + {addr}
      ensures addr == 0 ==> logged == old(logged)
      ensures InBitmap(sb, bits) && |bits| <= if old(names[i][bn]) == 0 && addr != 0 then 1 else 0
    {
      assert RowTied(disk, inode[i], names[i]);
      assert SlotTied(disk, inode[i], names[i], INDIRECT);
      assert SlotTied(disk, inode[i], names[i], bn);
      assert SlotOwned(names, owner, i, INDIRECT);
      var ind := inode[i].addrs[NDIRECT];
      assert BlockOwned(names, owner, sb, ind);
      addr := GetWord(disk[ind], bn - NDIRECT);
      bits := {};
      if addr == 0 {
        addr, bits := NewBlock(i);
        if addr != 0 {
          EntryStep(sb, disk, inode, names, owner, files, i, bn, addr);
          disk := Entered(disk, ind, bn, addr);
          logged := logged + {ind};
          names := Renamed(names, i, bn, addr);
          owner := owner[addr := (i, bn)];
        }
      }
    }

    // readi

    /** Reads up to `n` bytes at `off`: exactly the part of the contents that lies there.
        The first `reach` bytes of the destination can be written; with less than is needed
        the result is -1, and these have been.  Nothing is allocated. */
    method Readi(i: nat, off: nat, n: nat, reach: nat) returns (r: int, dst: seq<byte>)
      requires Valid() && i < |inode| && off < UINT_LIMIT && n < UINT_LIMIT
      modifies `disk, `logged, `inode, `names, `owner
      ensures Valid() && unchanged(this)
      ensures off > |files[i]| || off + n >= UINT_LIMIT ==> r == 0 && dst == []
      ensures !(off > |files[i]| || off + n >= UINT_LIMIT) ==>
        var want := files[i][off..Min(off + n, |files[i]|)];
        if |want| <= reach then r == |want| && dst == want else r == -1 && dst == want[..reach]
    {
      dst := [];
      assert SizeOk(inode[i], files[i], names[i]) && FileOk(disk, names[i], files[i]);
      if off > inode[i].size || off + n >= UINT_LIMIT {
        return 0, [];
      }
      var n1 := if off + n > inode[i].size then inode[i].size - off else n;
      var tot := 0;
      while tot < n1
        invariant tot <= n1 && tot <= reach && Valid() && unchanged(this)
        invariant dst == files[i][off..off + tot]
      {
        var m := Min(n1 - tot, BSIZE - (off + tot) % BSIZE);
        var part, got := ReadPart(i, off + tot, m);
        if !got {
          break;
        }
        if tot + m > reach {
          ShortCopy(files[i], off, n1, tot, m, reach);
          return -1, dst + part[..reach - tot];
        }
        SliceParts(files[i], off, off + tot, off + tot + m);
        dst := dst + part;
        tot := tot + m;
      }
      r := tot;
    }

    static lemma {:induction false} SliceParts(s: seq<byte>, x: nat, y: nat, z: nat)
      requires x <= y <= z <= |s|
      ensures s[x..y] + s[y..z] == s[x..z]
    {
    }

    static lemma {:induction false} ShortCopy(s: seq<byte>, off: nat, n: nat, tot: nat, m: nat, reach: nat)
      requires off + n <= |s| && tot <= reach <= tot + m <= n
      ensures s[off..off + tot] + s[off + tot..off + tot + m][..reach - tot] == s[off..off + n][..reach]
    {
    }

    /** One turn of the loop: bytes of one block. */
    method ReadPart(i: nat, off: nat, m: nat) returns (part: seq<byte>, got: bool)
      requires Valid() && i < |inode| && off + m <= |files[i]| && 0 < m <= BSIZE - off % BSIZE
      modifies `disk, `logged, `inode, `names, `owner
      ensures Valid() && unchanged(this) && got && part == files[i][off..off + m]
    {
      var k, o := off / BSIZE, off % BSIZE;
      assert off == k * BSIZE + o;
      assert FileOk(disk, names[i], files[i]) && Backed(disk, names[i], files[i], k);
      assert BlockHolds(disk[names[i][k]], files[i], k);
      var addr, _ := Bmap(i, k);
      got := addr != 0;
      if got {
        part := disk[addr][o..o + m];
        BlockSlice(disk[addr], files[i], k, o, m);
      } else {
        part := [];
      }
    }

    lemma {:induction false} BlockSlice(b: Block, file: seq<byte>, k: nat, o: nat, m: nat)
      requires BlockHolds(b, file, k) && o + m <= BSIZE && k * BSIZE + o + m <= |file|
      ensures b[o..o + m] == file[k * BSIZE + o..k * BSIZE + o + m]
    {
      var x, y := b[o..o + m], file[k * BSIZE + o..k * BSIZE + o + m];
      forall j | 0 <= j < m ensures x[j] == y[j] {
        assert b[o + j] == file[k * BSIZE + (o + j)];
      }
    }

    // writei

    method Iupdate(i: nat)
      requires Busy(i) && InodeFits(inode[i])
      modifies `disk, `logged
      ensures Core(sb, disk, inode, names, owner, 0, -1) && FilesOk(disk, names, files) && Stored(disk, sb, inode, -1)
      ensures logged == old(logged) + {InodeBlock(sb, i)}
      ensures old(Full(disk, sb)) ==> Full(disk, sb)
    {
      StoreStep(sb, disk, inode, names, owner, files, i);
      ghost var before := disk;
      disk := StoreInode(disk, sb, i, inode[i]);
      logged := logged + {InodeBlock(sb, i)};
      forall b: nat | b < sb.size ensures BitBlock(sb, b) < |disk| && (InUse(before, sb, b) ==> InUse(disk, sb, b)) {
        BitBlockInMeta(sb, b);
      }
    }

    /** One turn of the loop: `src` lies within one block.  The copy brings `copied` bytes of
        it into the buffer, and fails if that is not all; the buffer is not logged then. */
    method WritePart(i: nat, off: nat, src: seq<byte>, copied: nat)
        returns (res: PartResult, ghost addr: nat, ghost bits: set<nat>)
      requires Busy(i) && off <= |files[i]| && 0 < |src| <= BSIZE - off % BSIZE && off + |src| <= MAXFILE * BSIZE
      requires Tight(names[i], |files[i]|) && copied <= |src|
      modifies `disk, `logged, `inode, `names, `owner, `files
      ensures Busy(i) && Tight(names[i], |files[i]|) && SameButAddrs(old(inode), inode, i)
      ensures GrownAt(old(names), names, i, off / BSIZE)
      ensures !res.NoBlock? ==> (res.NoCopy? <==> copied < |src|)
      ensures res.Wrote? ==> files == old(files)[i := Splice(old(files[i]), off, src)]
      ensures res.NoCopy? ==> files == old(files)[i := Splice(old(files[i]), off, src[..copied])[..|old(files[i])|]]
      ensures res.NoBlock? ==> files == old(files) && Full(disk, sb) && |old(files[i])| <= off
      ensures logged <= old(logged) + bits + Indirect(names[i]) + (if res.NoBlock? then {} else {addr})
      ensures InBitmap(sb, bits)
      ensures |bits| <= (if !res.NoBlock? && off % BSIZE == 0 then 1 else 0) +
          (if old(names[i][INDIRECT]) != names[i][INDIRECT] then 1 else 0)
    {
      var k, o := off / BSIZE, off % BSIZE;
      assert off == k * BSIZE + o;
      ghost var row := names[i];
      assert FileOk(disk, names[i], files[i]) && Backed(disk, names[i], files[i], k);
      var a, bs := Bmap(i, k);
      addr, bits := a, bs;
      GrownTight(row, names[i], k, off, |files[i]|);
      if a == 0 {
        return NoBlock, addr, bits;
      }
      ghost var file := files[i];
      WriteStep(sb, disk, inode, names, owner, files, i, k, o, src[..copied]);
      disk := disk[a := Patched(disk[a], o, src[..copied])];
      files := files[i := Splice(file, off, src[..copied])];
      if copied < |src| {
        StrayFile(i, |file|);
        files := files[i := files[i][..|file|]];
        return NoCopy, addr, bits;
      }
      assert src[..copied] == src;
      logged := logged + {a};
      res := Wrote;
    }

    /** The bytes of a buffer behind the end of the file are not part of it. */
    lemma {:induction false} StrayFile(i: nat, n: nat)
      requires Busy(i) && n <= |files[i]|
      ensures FilesOk(disk, names, files[i := files[i][..n]])
    {
      forall j: nat | j < |names| ensures FileOk(disk, names[j], files[i := files[i][..n]][j]) {
        assert FileOk(disk, names[j], files[j]);
        FilePrefix(disk, names[i], files[i], n);
      }
    }

    lemma {:induction false} GrownTight(row: Row, row': Row, k: nat, off: nat, len: nat)
      requires Tight(row, len) && k < MAXFILE && k * BSIZE <= off <= len
      requires forall t: nat :: t < MAXFILE && t != k ==> row'[t] == row[t]
      ensures forall n: nat :: n >= len ==> Tight(row', n)
    {
    }

    /** Blocks counted so far by the write loop, `done` of `n` bytes being written. */
    static ghost predicate Progress(off: nat, done: nat, n: nat, count: nat) {
      && done <= n
      && (done == 0 ==> count == 0)
      && (0 < done < n ==> count * BSIZE == off % BSIZE + done)
      && (0 < done == n ==> 0 < count && (count - 1) * BSIZE < off % BSIZE + n)
    }

    /** The blocks logged so far: data blocks, bitmap blocks, the indirect block,
        which was `ind` at first. */
    static ghost predicate Accounted(sb: Super, was: set<nat>, log: set<nat>, data: set<nat>, bits: set<nat>,
        ind: nat, row: Row, off: nat, count: nat) {
      && log <= was + data + bits + Indirect(row) && InBitmap(sb, bits)
      && |data| <= count && (ind != 0 ==> row[INDIRECT] == ind)
      && |bits| <= Fresh(off, count) + (if ind != row[INDIRECT] then 1 else 0)
    }

    lemma {:induction false} AccountedStep(was: set<nat>, log: set<nat>, data: set<nat>, bits: set<nat>, ind: nat,
        row: Row, off: nat, count: nat,
        log': set<nat>, got: bool, addr: nat, more: set<nat>, row': Row, extra: nat)
      requires Accounted(sb, was, log, data, bits, ind, row, off, count)
      requires log' <= log + more + Indirect(row') + (if got then {addr} else {}) && InBitmap(sb, more)
      requires row[INDIRECT] != 0 ==> row'[INDIRECT] == row[INDIRECT]
      requires |more| <= (if got then extra else 0) + (if row[INDIRECT] != row'[INDIRECT] then 1 else 0)
      requires Fresh(off, count + 1) == Fresh(off, count) + extra
      ensures if got then Accounted(sb, was, log', data + {addr}, bits + more, ind, row', off, count + 1)
              else Accounted(sb, was, log', data, bits + more, ind, row', off, count)
    {
    }

    /** `done` has been written at `off` of inode `i`, and `stray` lies behind it in a buffer
        that has not been logged. */
    ghost predicate Written(i: nat, off: nat, done: seq<byte>, stray: seq<byte>, inode0: seq<Inode>, names0: Names,
        files0: seq<seq<byte>>)
      requires i < |files0| && off <= |files0[i]|
      reads this
    {
      && Busy(i) && Tight(names[i], |files[i]|) && SameButAddrs(inode0, inode, i)
      && files == files0[i := Strayed(files0[i], off, done, stray)]
      && |names| == |names0| && forall j: nat :: j < |names| && j != i ==> names[j] == names0[j]
    }

    /** Where the write loop stops, for a file of `len` bytes. */
    ghost predicate StopsAt(len: nat, off: nat, n: nat, reach: nat, tot: nat, stray: nat)
      reads this
    {
      Stops(Full(disk, sb), len, off, n, reach, tot, stray)
    }

    /** What holds after each turn of the write loop. */
    ghost predicate SoFar(i: nat, off: nat, src: seq<byte>, tot: nat, stray: nat, a: Account, inode0: seq<Inode>,
        names0: Names, files0: seq<seq<byte>>)
      requires i < |files0| && off <= |files0[i]|
      reads this
    {
      && tot + stray <= |src| && Written(i, off, src[..tot], src[tot..tot + stray], inode0, names0, files0)
      && Progress(off, a.upto, |src|, a.count)
      && Accounted(sb, a.was, logged, a.data, a.bits, a.ind, names[i], off, a.count)
    }

    /** The loop of writei: writes as much of `src` as there is room for, and as can be
        copied: the first `reach` bytes of it. */
    method WriteLoop(i: nat, off: nat, src: seq<byte>, reach: nat)
        returns (tot: nat, ghost stray: nat, ghost a: Account)
      requires Busy(i) && off <= |files[i]| && off + |src| <= MAXFILE * BSIZE && Tight(names[i], |files[i]|)
      modifies `disk, `logged, `inode, `names, `owner, `files
      ensures StopsAt(old(|files[i]|), off, |src|, reach, tot, stray)
      ensures SoFar(i, off, src, tot, stray, a, old(inode), old(names), old(files))
      ensures a.was == old(logged) && a.ind == old(names[i][INDIRECT])
    {
      tot, stray, a := 0, 0, Account(logged, {}, {}, names[i][INDIRECT], 0, 0);
      SpliceNone(files, i, off, src);
      StrayNone(files[i], off, src, 0);
      assert src[0..0] == [];
      var res := Wrote;
      while tot < |src| && res.Wrote?
        invariant SoFar(i, off, src, tot, stray, a, old(inode), old(names), old(files))
        invariant a.was == old(logged) && a.ind == old(names[i][INDIRECT])
        invariant res.Wrote? ==> stray == 0 && a.upto == tot && (tot > 0 ==> tot <= reach)
        invariant !res.Wrote? ==> tot < |src| && StopsAt(old(|files[i]|), off, |src|, reach, tot, stray)
        decreases |src| - tot, if res.Wrote? then 1 else 0
      {
        res, tot, stray, a := WriteTurn(i, off, src, tot, reach, a, old(inode), old(names), old(files));
      }
    }

    lemma {:induction false} StrayNone(file: seq<byte>, off: nat, src: seq<byte>, tot: nat)
      requires off <= |file| && tot <= |src|
      ensures Strayed(file, off, src[..tot], []) == Splice(file, off, src[..tot])
    {
      var f := Splice(file, off, src[..tot]);
      assert Splice(f, off + tot, [])[..|f|] == f;
    }

    /** Writing on behind what has been written. */
    lemma {:induction false} StrayOn(files0: seq<seq<byte>>, i: nat, off: nat, src: seq<byte>, tot: nat, m: nat,
        more: seq<byte>)
      requires i < |files0| && off <= |files0[i]| && tot + m <= |src|
      ensures src[tot..tot] == [] && off + tot <= |Splice(files0[i], off, src[..tot])|
      ensures Strayed(files0[i], off, src[..tot], []) == Splice(files0[i], off, src[..tot])
      ensures var f := Splice(files0[i], off, src[..tot]);
        Strayed(f, off + tot, src[tot..tot + m], more) == Strayed(files0[i], off, src[..tot + m], more)
    {
      StrayNone(files0[i], off, src, tot);
      SpliceAppend(files0[i], off, src[..tot], src[tot..tot + m]);
      assert src[..tot] + src[tot..tot + m] == src[..tot + m];
    }

    /** The contents after a turn. */
    lemma {:induction false} AfterTurn(files0: seq<seq<byte>>, files1: seq<seq<byte>>, files2: seq<seq<byte>>, i: nat,
        off: nat, src: seq<byte>,
        tot: nat, m: nat, copied: nat, res: PartResult)
      requires i < |files0| && off <= |files0[i]| && tot + m <= |src| && copied <= m
      requires files1 == files0[i := Strayed(files0[i], off, src[..tot], [])]
      requires |files1[i]| >= off + tot
      requires res.Wrote? ==> files2 == files1[i := Splice(files1[i], off + tot, src[tot..tot + m])]
      requires res.NoCopy? ==>
        files2 == files1[i := Splice(files1[i], off + tot, src[tot..tot + m][..copied])[..|files1[i]|]]
      requires res.NoBlock? ==> files2 == files1
      ensures !res.NoCopy? ==>
        files2 == files0[i := Strayed(files0[i], off, src[..if res.Wrote? then tot + m else tot], [])]
      ensures res.NoCopy? ==> files2 == files0[i := Strayed(files0[i], off, src[..tot], src[tot..tot + copied])]
    {
      StrayOn(files0, i, off, src, tot, m, []);
      StrayNone(files0[i], off, src, tot + m);
      StrayNone(files1[i], off + tot, src[tot..], m);
      assert src[tot..][..m] == src[tot..tot + m];
      PartOf(src, tot, m, 0, copied);
    }

    /** One turn of the loop. */
    method WriteTurn(i: nat, off: nat, src: seq<byte>, tot: nat, reach: nat, ghost a: Account,
        ghost inode0: seq<Inode>, ghost names0: Names,
        ghost files0: seq<seq<byte>>)
        returns (res: PartResult, tot': nat, ghost stray: nat, ghost a': Account)
      requires i < |files0| && off <= |files0[i]| && off + |src| <= MAXFILE * BSIZE && tot < |src|
      requires (tot > 0 ==> tot <= reach)
      requires SoFar(i, off, src, tot, 0, a, inode0, names0, files0) && a.upto == tot
      modifies `disk, `logged, `inode, `names, `owner, `files
      ensures SoFar(i, off, src, tot', stray, a', inode0, names0, files0) && a'.was == a.was && a'.ind == a.ind
      ensures res.Wrote? ==> tot < tot' <= reach && stray == 0 && a'.upto == tot'
      ensures !res.Wrote? ==> tot' == tot && StopsAt(|files0[i]|, off, |src|, reach, tot, stray)
    {
      var m := Min(|src| - tot, BSIZE - (off + tot) % BSIZE);
      Progressed(off, tot, |src|, a.count, m);
      var copied := Copied(reach, tot, m);
      assert src[tot..tot + 0] == [] && src[tot + m..tot + m] == [];
      ghost var data, bits;
      res, data, bits := WriteBlock(i, off, src, tot, m, copied, inode0, names0, files0, a);
      tot' := if res.Wrote? then tot + m else tot;
      stray := if res.NoCopy? then copied else 0;
      if !res.Wrote? {
        TurnStops(Full(disk, sb), |files0[i]|, off, |src|, reach, tot, m, a.count, res);
      }
      a' := if res.NoBlock? then a.(data := data, bits := bits)
            else a.(data := data, bits := bits, count := a.count + 1, upto := tot + m);
    }

    /** How far the copy of a piece of `m` bytes gets. */
    static function Copied(reach: nat, tot: nat, m: nat): nat {
      if reach >= tot + m then m else if tot < reach then reach - tot else 0
    }

    static lemma {:induction false} TurnStops(full: bool, len: nat, off: nat, n: nat, reach: nat, tot: nat, m: nat,
        count: nat, res: PartResult)
      requires tot < n && Progress(off, tot, n, count) && m == Min(n - tot, BSIZE - (off + tot) % BSIZE)
      requires (tot > 0 ==> tot <= reach) && !res.Wrote?
      requires (res.NoBlock? ==> full && len <= off + tot) && (res.NoCopy? ==> Copied(reach, tot, m) < m)
      ensures Stops(full, len, off, n, reach, tot, if res.NoCopy? then Copied(reach, tot, m) else 0)
    {
      if tot > 0 {
        assert (off + tot) % BSIZE == (off % BSIZE + tot) % BSIZE == 0;
      }
    }

    /** One block, with what it adds to the count. */
    method WriteBlock(i: nat, off: nat, src: seq<byte>, tot: nat, m: nat, copied: nat, ghost inode0: seq<Inode>,
        ghost names0: Names,
        ghost files0: seq<seq<byte>>, ghost a: Account)
        returns (res: PartResult, ghost data: set<nat>, ghost bits: set<nat>)
      requires i < |files0| && off <= |files0[i]| && off + |src| <= MAXFILE * BSIZE
      requires 0 < m <= BSIZE - (off + tot) % BSIZE && tot + m <= |src| && copied <= m
      requires Written(i, off, src[..tot], [], inode0, names0, files0)
      requires Accounted(sb, a.was, logged, a.data, a.bits, a.ind, names[i], off, a.count)
      requires Fresh(off, a.count + 1) == Fresh(off, a.count) + if (off + tot) % BSIZE == 0 then 1 else 0
      modifies `disk, `logged, `inode, `names, `owner, `files
      ensures !res.NoBlock? ==> (res.NoCopy? <==> copied < m)
      ensures !res.NoCopy? ==> Written(i, off, src[..if res.Wrote? then tot + m else tot], [], inode0, names0, files0)
      ensures res.NoCopy? ==> Written(i, off, src[..tot], src[tot..tot + copied], inode0, names0, files0)
      ensures var count := if res.NoBlock? then a.count else a.count + 1;
        Accounted(sb, a.was, logged, data, bits, a.ind, names[i], off, count)
      ensures res.NoBlock? ==> Full(disk, sb) && |files0[i]| <= off + tot
    {
      ghost var addr, more;
      ghost var log0, row := logged, names[i];
      res, addr, more := PutBlock(i, off, src, tot, m, copied, inode0, names0, files0);
      AccountedStep(a.was, log0, a.data, a.bits, a.ind, row, off, a.count, logged, !res.NoBlock?, addr, more, names[i],
        if (off + tot) % BSIZE == 0 then 1 else 0);
      data, bits := if res.NoBlock? then a.data else a.data + {addr}, a.bits + more;
    }

    method PutBlock(i: nat, off: nat, src: seq<byte>, tot: nat, m: nat, copied: nat, ghost inode0: seq<Inode>,
        ghost names0: Names, ghost files0: seq<seq<byte>>)
        returns (res: PartResult, ghost addr: nat, ghost bits: set<nat>)
      requires i < |files0| && off <= |files0[i]| && off + |src| <= MAXFILE * BSIZE
      requires 0 < m <= BSIZE - (off + tot) % BSIZE && tot + m <= |src| && copied <= m
      requires Written(i, off, src[..tot], [], inode0, names0, files0)
      modifies `disk, `logged, `inode, `names, `owner, `files
      ensures !res.NoBlock? ==> (res.NoCopy? <==> copied < m)
      ensures !res.NoCopy? ==> Written(i, off, src[..if res.Wrote? then tot + m else tot], [], inode0, names0, files0)
      ensures res.NoCopy? ==> Written(i, off, src[..tot], src[tot..tot + copied], inode0, names0, files0)
      ensures res.NoBlock? ==> Full(disk, sb) && |files0[i]| <= off + tot
      ensures logged <= old(logged) + bits + Indirect(names[i]) + (if res.NoBlock? then {} else {addr})
      ensures InBitmap(sb, bits) && (old(names[i][INDIRECT]) != 0 ==> names[i][INDIRECT] == old(names[i][INDIRECT]))
      ensures |bits| <= (if !res.NoBlock? && (off + tot) % BSIZE == 0 then 1 else 0) +
          (if old(names[i][INDIRECT]) != names[i][INDIRECT] then 1 else 0)
    {
      ghost var files1 := files;
      StrayOn(files0, i, off, src, tot, m, []);
      res, addr, bits := WritePart(i, off + tot, src[tot..tot + m], copied);
      AfterTurn(files0, files1, files, i, off, src, tot, m, copied, res);
    }

    /** How many of the first `count` blocks can be new: all of them but the first
        one of an unaligned write. */
    static ghost function Fresh(off: nat, count: nat): nat {
      if off % BSIZE != 0 && count > 0 then count - 1 else count
    }

    lemma {:induction false} Progressed(off: nat, done: nat, n: nat, count: nat, m: nat)
      requires Progress(off, done, n, count) && done < n
      requires m == Min(n - done, BSIZE - (off + done) % BSIZE)
      ensures Progress(off, done + m, n, count + 1)
      ensures Fresh(off, count + 1) == Fresh(off, count) + if (off + done) % BSIZE == 0 then 1 else 0
    {
      if done > 0 {
        assert (off + done) % BSIZE == (off % BSIZE + done) % BSIZE == 0;
      }
    }

    lemma {:induction false} CountTouched(off: nat, done: nat, n: nat, count: nat)
      requires Progress(off, done, n, count)
      ensures count <= Touched(off, n)
      ensures Fresh(off, count) <= Touched(off, n) - if off % BSIZE == 0 || n == 0 then 0 else 1
    {
    }

    lemma {:induction false} LoggedBound(was: set<nat>, log: set<nat>, data: set<nat>, bits: set<nat>, ind: nat,
        row: Row, off: nat, done: nat, n: nat, count: nat, last: nat)
      requires Accounted(sb, was, log, data, bits, ind, row, off, count) && Progress(off, done, n, count)
      ensures |log + {last} - was| <= 2 * Touched(off, n) + 3 - (if off % BSIZE == 0 || n == 0 then 0 else 1)
      ensures sb.size <= BPB ==> |log + {last} - was| <= Touched(off, n) + 3
    {
      CountTouched(off, done, n, count);
      var all := data + bits + Indirect(row) + {last};
      assert log + {last} - was <= all;
      SubsetCount(log + {last} - was, all);
      assert |all| <= |data| + |bits| + 2;
      if sb.size <= BPB {
        assert bits <= {sb.bmapstart};
        SubsetCount(bits, {sb.bmapstart});
      }
    }

    lemma {:induction false} FitsInode(i: nat)
      requires Core(sb, disk, inode, names, owner, 0, -1) && i < |inode|
      requires inode[i].kind < WORD_LIMIT && inode[i].links < WORD_LIMIT && inode[i].size < WORD_LIMIT
      ensures InodeFits(inode[i])
    {
      var n := inode[i];
      assert RowTied(disk, n, names[i]);
      forall k | 0 <= k < |n.addrs| ensures n.addrs[k] < WORD_LIMIT {
        var s := if k < NDIRECT then k else INDIRECT;
        assert SlotTied(disk, n, names[i], s) && SlotOwned(names, owner, i, s);
        if n.addrs[k] != 0 {
          assert BlockOwned(names, owner, sb, names[i][s]);
        }
      }
    }

    /** The end of writei: the new size, and the inode written back. */
    method FinishWrite(i: nat, end: nat)
      requires Busy(i) && Tight(names[i], |files[i]|) && SizesOk(inode, files, names, i)
      requires inode[i].kind < WORD_LIMIT && inode[i].links < WORD_LIMIT
      requires |files[i]| == if end > inode[i].size then end else inode[i].size
      modifies `disk, `logged, `inode
      ensures Valid() && logged == old(logged) + {InodeBlock(sb, i)} && (old(Full(disk, sb)) ==> Full(disk, sb))
      ensures inode == old(inode)[i := old(inode[i]).(size := |files[i]|)]
    {
      assert FileOk(disk, names[i], files[i]);
      if end > inode[i].size {
        SizeSet(i, end);
        inode := inode[i := inode[i].(size := end)];
      }
      FitsInode(i);
      Iupdate(i);
    }

    lemma {:induction false} SizeSet(i: nat, end: nat)
      requires Busy(i)
      ensures Core(sb, disk, inode[i := inode[i].(size := end)], names, owner, 0, -1)
      ensures Stored(disk, sb, inode[i := inode[i].(size := end)], i)
    {
      var inode' := inode[i := inode[i].(size := end)];
      forall j: nat | j < |inode'| ensures RowTied(disk, inode'[j], names[j]) {
        assert RowTied(disk, inode[j], names[j]);
        forall s: nat | s < SLOTS ensures SlotTied(disk, inode'[j], names[j], s) {
          assert SlotTied(disk, inode[j], names[j], s);
        }
      }
      forall j: nat | j < |inode'| && j != i ensures StoredAt(disk, sb, inode', j) {
        assert StoredAt(disk, sb, inode, j);
      }
    }

    static predicate Refused(size: nat, off: nat, n: nat) {
      off > size || off + n >= UINT_LIMIT || off + n > MAXFILE * BSIZE
    }

    /** Writes `src` at `off`, of which the first `reach` bytes can be copied: the returned
        number of bytes is spliced into the contents, all of them unless the disk is full or
        a copy fails, and no other file changes.  A copy that fails part way through a block
        leaves what it has copied in the buffer, not logged and not counted: the file then
        changes beyond the bytes reported exactly if it held others there. */
    method Writei(i: nat, off: nat, src: seq<byte>, reach: nat) returns (r: int, ghost stray: nat)
      requires Valid() && i < |inode| && off < UINT_LIMIT && |src| < UINT_LIMIT
      modifies `disk, `logged, `inode, `names, `owner, `files
      ensures Valid()
      ensures r == -1 <==> Refused(old(inode[i].size), off, |src|)
      ensures r == -1 ==> unchanged(this)
      ensures r != -1 ==> 0 <= r <= |src| && off <= |old(files[i])|
      ensures r != -1 ==> StopsAt(old(|files[i]|), off, |src|, reach, r, stray)
      ensures r != -1 ==> files == old(files)[i := Strayed(old(files[i]), off, src[..r], src[r..r + stray])]
      ensures r != -1 ==> r <= Counted(off, |src|, reach)
      ensures -1 < r < Counted(off, |src|, reach) ==> Full(disk, sb) && |old(files[i])| <= off + r
      ensures r != -1 ==> (files[i] != Splice(old(files[i]), off, src[..r]) <==>
                             LeavesTrace(old(files[i]), off, src, reach, Counted(off, |src|, reach)))
      ensures |inode| == |old(inode)| && inode[i].kind == old(inode[i].kind) && inode[i].links == old(inode[i].links)
      ensures forall j: nat :: j < |inode| && j != i ==> inode[j] == old(inode[j]) && names[j] == old(names[j])
      ensures |logged - old(logged)| <= 2 * Touched(off, |src|) + 3 - if off % BSIZE == 0 || src == [] then 0 else 1
      ensures sb.size <= BPB ==> |logged - old(logged)| <= Touched(off, |src|) + 3
    {
      assert StoredAt(disk, sb, inode, i) && SizeOk(inode[i], files[i], names[i]);
      if off > inode[i].size || off + |src| >= UINT_LIMIT || off + |src| > MAXFILE * BSIZE {
        assert logged - old(logged) == {};
        return -1, 0;
      }
      r, stray := WriteAll(i, off, src, reach);
      StrayTrace(Full(disk, sb), old(files[i]), off, src, reach, r, stray);
      ReportedCount(Full(disk, sb), old(|files[i]|), off, |src|, reach, r, stray);
    }

    /** writei, when it does not refuse. */
    method WriteAll(i: nat, off: nat, src: seq<byte>, reach: nat) returns (r: nat, ghost stray: nat)
      requires Valid() && i < |inode| && off <= |files[i]| && off + |src| <= MAXFILE * BSIZE
      requires inode[i].kind < WORD_LIMIT && inode[i].links < WORD_LIMIT
      modifies `disk, `logged, `inode, `names, `owner, `files
      ensures Valid() && r <= |src| && StopsAt(old(|files[i]|), off, |src|, reach, r, stray)
      ensures files == old(files)[i := Strayed(old(files[i]), off, src[..r], src[r..r + stray])]
      ensures |inode| == |old(inode)| && inode[i].kind == old(inode[i].kind) && inode[i].links == old(inode[i].links)
      ensures forall j: nat :: j < |inode| && j != i ==> inode[j] == old(inode[j]) && names[j] == old(names[j])
      ensures |logged - old(logged)| <= 2 * Touched(off, |src|) + 3 - if off % BSIZE == 0 || src == [] then 0 else 1
      ensures sb.size <= BPB ==> |logged - old(logged)| <= Touched(off, |src|) + 3
    {
      assert SizeOk(inode[i], files[i], names[i]);
      ghost var a;
      r, stray, a := WriteLoop(i, off, src, reach);
      OthersSized(old(inode), inode, old(files), files, old(names), names, i);
      LoggedBound(a.was, logged, a.data, a.bits, a.ind, names[i], off, a.upto, |src|, a.count, InodeBlock(sb, i));
      FinishWrite(i, off + r);
    }

    lemma {:induction false} OthersSized(inode: seq<Inode>, inode': seq<Inode>, files: seq<seq<byte>>,
        files': seq<seq<byte>>, names: Names, names': Names, i: nat)
      requires SizesOk(inode, files, names, -1) && SameButAddrs(inode, inode', i)
      requires |files'| == |files| && |names'| == |names|
      requires forall j: nat :: j < |files| && j != i ==> files'[j] == files[j] && names'[j] == names[j]
      ensures SizesOk(inode', files', names', i)
    {
      forall j: nat | j < |inode'| && j != i ensures SizeOk(inode'[j], files'[j], names'[j]) {
        assert SizeOk(inode[j], files[j], names[j]);
      }
    }

    // filewrite

    /** One transaction: begin_op, writei, end_op. */
    method WriteChunk(f: File, src: seq<byte>, reach: nat) returns (r: int, ghost stray: nat, ghost tx: set<nat>)
      requires Valid() && f.inum < |inode| && f.off < UINT_LIMIT && 0 < |src| <= CHUNK
      modifies `disk, `logged, `inode, `names, `owner, `files, f
      ensures Valid() && |inode| == |old(inode)| && |tx| <= MAXOPBLOCKS && (sb.size <= BPB ==> |tx| <= 7)
      ensures r == -1 <==> Refused(old(inode[f.inum].size), old(f.off), |src|)
      ensures r == -1 ==> f.off == old(f.off) && files == old(files)
      ensures r != -1 ==> 0 <= r <= |src| && f.off == old(f.off) + r <= MAXFILE * BSIZE
      ensures r != -1 ==> StopsAt(old(|files[f.inum]|), old(f.off), |src|, reach, r, stray)
      ensures r != -1 ==> old(f.off <= |files[f.inum]|)
      ensures r != -1 ==>
        files == old(files)[f.inum := Strayed(old(files[f.inum]), old(f.off), src[..r], src[r..r + stray])]
    {
      logged := {};
      ChunkTouched(f.off, |src|);
      r, stray := Writei(f.inum, f.off, src, reach);
      tx := logged;
      assert logged - {} == logged;
      if r > 0 {
        f.off := f.off + r;
      }
    }

    lemma {:induction false} ChunkTouched(off: nat, n: nat)
      requires 0 < n <= CHUNK
      ensures CHUNK == (MAXOPBLOCKS - 1 - 1 - 2) / 2 * BSIZE
      ensures 2 * Touched(off, n) + 3 - (if off % BSIZE == 0 then 0 else 1) <= MAXOPBLOCKS
      ensures Touched(off, n) + 3 <= 7
    {
    }

    /** filewrite: one transaction after another, none of which logs more than
        MAXOPBLOCKS blocks.  All of `src` is written, or -1 is returned and a prefix
        of it has been written; bytes that a failed copy has brought into a buffer lie
        behind it. */
    method FileWrite(f: File, src: seq<byte>, reach: nat)
        returns (ret: int, ghost done: nat, ghost stray: nat, ghost txs: seq<set<nat>>)
      requires Valid() && f.inum < |inode| && f.off < UINT_LIMIT
      modifies `disk, `logged, `inode, `names, `owner, `files, f
      ensures Valid() && done + stray <= |src| && ret == (if f.writable && done == |src| then |src| else -1)
      ensures f.off == old(f.off) + done
      ensures Upto(old(files), files, f.inum, old(f.off), src, done, stray)
      ensures WithinLimit(sb, txs)
      ensures f.writable && done < |src| ==> Full(disk, sb) || Stuck(f, |src| - done) || reach < |src|
      ensures stray > 0 ==> done + stray == reach < |src|
      ensures f.writable ==>
        FileStops(Full(disk, sb), old(|files[f.inum]|), old(f.off), |src|, reach, done, stray)
      ensures f.writable && old(f.off) <= |old(files[f.inum])| ==>
        (files[f.inum] != Splice(old(files[f.inum]), old(f.off), src[..done]) <==>
           FileLeavesTrace(old(files[f.inum]), old(f.off), src, reach))
    {
      if !f.writable {
        UptoNothing(files, f.inum, f.off, src);
        return -1, 0, 0, [];
      }
      var i;
      i, done, stray, txs := WriteChunks(f, src, reach);
      ret := if i == |src| then |src| else -1;
      WhyStopped(f, old(files), old(f.off), src, reach, done, stray);
      if old(f.off) <= |old(files[f.inum])| {
        FileTrace(Full(disk, sb), old(files[f.inum]), old(f.off), src, reach, done, stray);
      }
    }

    lemma {:induction false} WhyStopped(f: File, files0: seq<seq<byte>>, off0: nat, src: seq<byte>, reach: nat,
        done: nat, stray: nat)
      requires Valid() && f.inum < |inode| && f.off == off0 + done
      requires Upto(files0, files, f.inum, off0, src, done, stray)
      requires FileStops(Full(disk, sb), |files0[f.inum]|, off0, |src|, reach, done, stray)
      ensures done < |src| ==> Full(disk, sb) || Stuck(f, |src| - done) || reach < |src|
      ensures stray > 0 ==> done + stray == reach < |src|
    {
      assert SizeOk(inode[f.inum], files[f.inum], names[f.inum]);
    }

    lemma {:induction false} UptoNothing(files0: seq<seq<byte>>, i: nat, off: nat, src: seq<byte>)
      requires i < |files0|
      ensures Upto(files0, files0, i, off, src, 0, 0)
    {
      if off <= |files0[i]| {
        SpliceNone(files0, i, off, src);
        StrayNone(files0[i], off, src, 0);
      }
    }

    /** The loop of filewrite. */
    method WriteChunks(f: File, src: seq<byte>, reach: nat)
        returns (i: nat, ghost done: nat, ghost stray: nat, ghost txs: seq<set<nat>>)
      requires Valid() && f.inum < |inode| && f.off < UINT_LIMIT
      modifies `disk, `logged, `inode, `names, `owner, `files, f
      ensures Valid() && |inode| == |old(inode)|
      ensures i <= done && done + stray <= |src| && (i == |src| <==> done == |src|)
      ensures f.off == old(f.off) + done && WithinLimit(sb, txs)
      ensures Upto(old(files), files, f.inum, old(f.off), src, done, stray)
      ensures FileStops(Full(disk, sb), old(|files[f.inum]|), old(f.off), |src|, reach, done, stray)
    {
      i, done, stray, txs := 0, 0, 0, [];
      ghost var files0, off0 := files, f.off;
      UptoNothing(files, f.inum, f.off, src);
      while i < |src|
        invariant i == done <= |src| && Valid() && |inode| == |old(inode)| && f.off == off0 + i < UINT_LIMIT
        invariant Upto(files0, files, f.inum, off0, src, done, 0) && stray == 0
        invariant WithinLimit(sb, txs) && i <= reach && (i % CHUNK == 0 || i == |src|)
      {
        var n1 := Min(|src| - i, CHUNK);
        var r;
        ghost var tx;
        r, done, stray, tx := WriteNext(f, src, reach, i, n1, files0, off0);
        txs := txs + [tx];
        if r != n1 {
          return;
        }
        i := i + r;
      }
      WholeChunks(off0, |src|, reach, |src|);
    }

    /** One turn of it. */
    method WriteNext(f: File, src: seq<byte>, reach: nat, i: nat, n1: nat, ghost files0: seq<seq<byte>>,
        ghost off0: nat)
        returns (r: int, ghost done: nat, ghost stray: nat, ghost tx: set<nat>)
      requires Valid() && f.inum < |inode| && f.off == off0 + i < UINT_LIMIT && i < |src| && i <= reach
      requires Upto(files0, files, f.inum, off0, src, i, 0) && n1 == Min(|src| - i, CHUNK) && i % CHUNK == 0
      modifies `disk, `logged, `inode, `names, `owner, `files, f
      ensures Valid() && |inode| == |old(inode)| && WithinLimit(sb, [tx])
      ensures i <= done <= i + n1 && f.off == off0 + done < UINT_LIMIT
      ensures Upto(files0, files, f.inum, off0, src, done, stray)
      ensures r == n1 ==> done == i + r <= reach && stray == 0
      ensures r != n1 ==> done < |src| && FileStops(Full(disk, sb), |files0[f.inum]|, off0, |src|, reach, done, stray)
    {
      r, stray, tx := WriteUpto(f, src, reach, i, n1, files0, off0);
      done := if r >= 0 then i + r else i;
      if r == -1 {
        WholeChunks(off0, |src|, reach, i);
      } else if r != n1 {
        ChunkStops(Full(disk, sb), |files0[f.inum]|, old(|files[f.inum]|), off0, |src|, reach, i, r, stray);
      }
    }

    method WriteUpto(f: File, src: seq<byte>, reach: nat, i: nat, n1: nat, ghost files0: seq<seq<byte>>,
        ghost off0: nat)
        returns (r: int, ghost stray: nat, ghost tx: set<nat>)
      requires Valid() && f.inum < |inode| && f.off == off0 + i < UINT_LIMIT && 0 < n1 <= CHUNK && i + n1 <= |src|
      requires Upto(files0, files, f.inum, off0, src, i, 0) && i <= reach
      modifies `disk, `logged, `inode, `names, `owner, `files, f
      ensures Valid() && |inode| == |old(inode)| && WithinLimit(sb, [tx])
      ensures -1 <= r <= n1 && f.off == off0 + i + (if r >= 0 then r else 0) < UINT_LIMIT
      ensures old(|files[f.inum]|) >= |files0[f.inum]|
      ensures r >= 0 ==> r + stray <= n1 && Upto(files0, files, f.inum, off0, src, i + r, stray)
      ensures r >= 0 ==> Stops(Full(disk, sb), old(|files[f.inum]|), off0 + i, n1, reach - i, r, stray)
      ensures r >= 0 ==> off0 <= |files0[f.inum]| && off0 + i + n1 <= MAXFILE * BSIZE
      ensures r == -1 ==> Upto(files0, files, f.inum, off0, src, i, 0) && stray == 0
      ensures r == -1 ==> off0 > |files0[f.inum]| || off0 + i + n1 > MAXFILE * BSIZE
    {
      ghost var before := files;
      assert SizeOk(inode[f.inum], files[f.inum], names[f.inum]);
      r, stray, tx := WriteChunk(f, src[i..i + n1], reach - i);
      assert SizeOk(inode[f.inum], files[f.inum], names[f.inum]);
      if r >= 0 {
        PartOf(src, i, n1, 0, r);
        PartOf(src, i, n1, r, r + stray);
        UptoNext(files0, before, f.inum, off0, src, i, r, stray);
      } else {
        stray := 0;
        assert files == before;
      }
    }

    static lemma {:induction false} PartOf(src: seq<byte>, i: nat, n: nat, x: nat, y: nat)
      requires i + n <= |src| && x <= y <= n
      ensures src[i..i + n][x..y] == src[i + x..i + y]
    {
      var a, b := src[i..i + n][x..y], src[i + x..i + y];
      assert |a| == |b| && forall k :: 0 <= k < |a| ==> a[k] == b[k];
    }

    /** A next chunk that writei would refuse. */
    ghost predicate Stuck(f: File, left: nat)
      reads this, f
    {
      f.inum < |inode| && left > 0 && Refused(inode[f.inum].size, f.off, Min(left, CHUNK))
    }

    /** The first `done` bytes of `src` have been written at `off`, and `stray` bytes behind
        them lie over what the file holds there. */
    static ghost predicate Upto(files0: seq<seq<byte>>, files: seq<seq<byte>>, i: nat, off: nat, src: seq<byte>,
        done: nat, stray: nat) {
      && i < |files0| && done + stray <= |src|
      && if off <= |files0[i]| then files == files0[i := Strayed(files0[i], off, src[..done], src[done..done + stray])]
         else done == stray == 0 && files == files0
    }

    lemma {:induction false} UptoNext(files0: seq<seq<byte>>, files: seq<seq<byte>>, i: nat, off: nat, src: seq<byte>,
        done: nat, r: nat, stray: nat)
      requires Upto(files0, files, i, off, src, done, 0) && done + r + stray <= |src| && i < |files|
      requires off + done <= |files[i]|
      ensures var file := Strayed(files[i], off + done, src[done..done + r], src[done + r..done + r + stray]);
        Upto(files0, files[i := file], i, off, src, done + r, stray)
    {
      if off <= |files0[i]| {
        StrayOn(files0, i, off, src, done, r, src[done + r..done + r + stray]);
      }
    }

    // itrunc

    /** bfree; the source panics if the block is already free, so that is a
        precondition here. */
    method Bfree(b: nat)
      requires WellLaid(sb) && |disk| == sb.size && b < sb.size && BitBlock(sb, b) < |disk| && InUse(disk, sb, b)
      modifies `disk, `logged
      ensures disk == Freed(old(disk), sb, b) && logged == old(logged) + {BitBlock(sb, b)}
    {
      disk := disk[BitBlock(sb, b) := ClearBit(disk[BitBlock(sb, b)], b % BPB)];
      logged := logged + {BitBlock(sb, b)};
    }

    /** Inode `i` is being emptied, and the slots below `s` are done. */
    ghost predicate Emptying(i: nat, s: nat, names0: Names, owner0: Owner, disk0: Disk)
      reads this
    {
      && Core(sb, disk, inode, names, owner, 0, i) && i < |inode| && |inode[i].addrs| == NDIRECT + 1
      && FilesOk(disk, names, files) && Stored(disk, sb, inode, i) && files[i] == []
      && |names0| == |names| && Remaining(owner0, owner, i, s)
      && (forall j: nat :: j < |names| && j != i ==> names[j] == names0[j])
      && (forall t: nat :: t < SLOTS ==> names[i][t] == if t < s then 0 else names0[i][t])
      && (names[i][INDIRECT] != 0 ==> SameAt(disk0, disk, names[i][INDIRECT]))
    }

    /** Frees the block in slot `s`, if there is one. */
    method DropSlot(i: nat, s: nat, a: nat, ghost names0: Names, ghost owner0: Owner, ghost disk0: Disk)
      requires Owned(names0, owner0, sb) && i < |names0| && s < SLOTS && a == names0[i][s]
      requires Emptying(i, s, names0, owner0, disk0)
      modifies `disk, `logged, `names, `owner
      ensures Emptying(i, s + 1, names0, owner0, disk0) && OnlyBitmap(sb, old(logged), logged)
    {
      RemainingNext(owner0, owner, if a == 0 then owner else owner - {a}, names0, sb, i, s);
      if a != 0 {
        DropStep(sb, disk, inode, names, owner, files, i, s);
        DropElsewhere(i, s);
        Bfree(a);
        names := Renamed(names, i, s, 0);
        owner := owner - {a};
      }
    }

    lemma {:induction false} DropElsewhere(i: nat, s: nat)
      requires Core(sb, disk, inode, names, owner, 0, i) && i < |names| && s < SLOTS && names[i][s] != 0
      ensures BitBlock(sb, names[i][s]) != names[i][INDIRECT] && names[i][s] < sb.size
    {
      assert SlotOwned(names, owner, i, s) && BlockOwned(names, owner, sb, names[i][s]);
      BitBlockInMeta(sb, names[i][s]);
      assert SlotOwned(names, owner, i, INDIRECT);
      if names[i][INDIRECT] != 0 {
        assert BlockOwned(names, owner, sb, names[i][INDIRECT]);
      }
    }

    method ClearAddr(i: nat, k: nat, ghost s: nat, ghost names0: Names, ghost owner0: Owner, ghost disk0: Disk)
      requires k <= NDIRECT && Emptying(i, s, names0, owner0, disk0)
      modifies `inode
      ensures Emptying(i, s, names0, owner0, disk0) && inode == WithAddr(old(inode), i, k, 0)
    {
      ghost var was := inode;
      inode := WithAddr(inode, i, k, 0);
      forall j: nat | j < |inode| && j != i ensures StoredAt(disk, sb, inode, j) {
        assert StoredAt(disk, sb, was, j);
      }
    }

    /** The loop over the direct blocks. */
    method TruncDirect(i: nat, ghost names0: Names, ghost owner0: Owner, ghost disk0: Disk)
      requires Owned(names0, owner0, sb) && i < |names0| && Emptying(i, 0, names0, owner0, disk0)
      requires forall k: nat :: k < NDIRECT ==> inode[i].addrs[k] == names0[i][k]
      modifies `disk, `logged, `names, `owner, `inode
      ensures Emptying(i, NDIRECT, names0, owner0, disk0) && SameButAddrs(old(inode), inode, i)
      ensures OnlyBitmap(sb, old(logged), logged)
      ensures forall k: nat :: k < NDIRECT ==> inode[i].addrs[k] == 0
      ensures inode[i].addrs[NDIRECT] == old(inode[i].addrs[NDIRECT])
    {
      var k := 0;
      while k < NDIRECT
        invariant k <= NDIRECT && Emptying(i, k, names0, owner0, disk0) && SameButAddrs(old(inode), inode, i)
        invariant OnlyBitmap(sb, old(logged), logged)
        invariant forall t: nat :: t < NDIRECT ==> inode[i].addrs[t] == if t < k then 0 else names0[i][t]
        invariant inode[i].addrs[NDIRECT] == old(inode[i].addrs[NDIRECT])
      {
        var a := inode[i].addrs[k];
        DropSlot(i, k, a, names0, owner0, disk0);
        if a != 0 {
          ClearAddr(i, k, k + 1, names0, owner0, disk0);
        }
        k := k + 1;
      }
    }

    /** The loop over the indirect block. */
    method TruncIndirect(i: nat, ind: nat, ghost names0: Names, ghost owner0: Owner, ghost disk0: Disk)
      requires Owned(names0, owner0, sb) && i < |names0| && Emptying(i, NDIRECT, names0, owner0, disk0)
      requires ind != 0 && ind == names0[i][INDIRECT] && ind < |disk|
      requires forall t: nat :: NDIRECT <= t < MAXFILE ==> names0[i][t] == GetWord(disk[ind], t - NDIRECT)
      modifies `disk, `logged, `names, `owner
      ensures Emptying(i, INDIRECT, names0, owner0, disk0) && OnlyBitmap(sb, old(logged), logged)
    {
      var a, j := disk[ind], 0;
      while j < NINDIRECT
        invariant j <= NINDIRECT && Emptying(i, NDIRECT + j, names0, owner0, disk0)
        invariant OnlyBitmap(sb, old(logged), logged)
      {
        DropSlot(i, NDIRECT + j, GetWord(a, j), names0, owner0, disk0);
        j := j + 1;
      }
    }

    ghost method StartEmptying(i: nat)
      requires Valid() && i < |inode|
      modifies `files
      ensures Emptying(i, 0, names, owner, disk) && files == old(files)[i := []]
      ensures forall t: nat :: t < SLOTS ==> names[i][t] == Name(disk, inode[i], t)
      ensures names[i][INDIRECT] < sb.size
    {
      ghost var was := files;
      files := files[i := []];
      forall j: nat | j < |names| ensures FileOk(disk, names[j], files[j]) {
        assert FileOk(disk, names[j], was[j]);
      }
      assert RowTied(disk, inode[i], names[i]);
      forall t: nat | t < SLOTS ensures names[i][t] == Name(disk, inode[i], t) {
        assert SlotTied(disk, inode[i], names[i], t);
      }
      assert SlotOwned(names, owner, i, INDIRECT);
      if names[i][INDIRECT] != 0 {
        assert BlockOwned(names, owner, sb, names[i][INDIRECT]);
      }
    }

    /** Frees what the indirect block lists, then the block itself. */
    method TruncRest(i: nat, ghost names0: Names, ghost owner0: Owner, ghost disk0: Disk)
      requires Owned(names0, owner0, sb) && i < |names0| && Emptying(i, NDIRECT, names0, owner0, disk0)
      requires inode[i].addrs[NDIRECT] == names0[i][INDIRECT] < |disk0| && |disk0| == |disk|
      requires forall t: nat :: NDIRECT <= t < MAXFILE ==>
        names0[i][t] == if names0[i][INDIRECT] == 0 then 0 else GetWord(disk0[names0[i][INDIRECT]], t - NDIRECT)
      modifies `disk, `logged, `names, `owner, `inode
      ensures Emptying(i, SLOTS, names0, owner0, disk0) && SameButAddrs(old(inode), inode, i)
      ensures OnlyBitmap(sb, old(logged), logged)
      ensures inode[i].addrs == old(inode[i].addrs)[NDIRECT := 0]
    {
      var ind := inode[i].addrs[NDIRECT];
      if ind != 0 {
        TruncIndirect(i, ind, names0, owner0, disk0);
        DropSlot(i, INDIRECT, ind, names0, owner0, disk0);
        ClearAddr(i, NDIRECT, SLOTS, names0, owner0, disk0);
      } else {
        NothingLeft(owner0, names0, i);
      }
    }

    lemma {:induction false} NothingLeft(owner0: Owner, names0: Names, i: nat)
      requires Owned(names0, owner0, sb) && i < |names0| && Remaining(owner0, owner, i, NDIRECT)
      requires forall t: nat :: NDIRECT <= t < SLOTS ==> names0[i][t] == 0
      ensures Remaining(owner0, owner, i, SLOTS)
    {
      forall b: nat ensures b in owner <==> b in owner0 && !(owner0[b].0 == i && owner0[b].1 < SLOTS) {
        if b in owner0 {
          assert BlockOwned(names0, owner0, sb, b);
        }
      }
    }

    /** Size 0, and the inode written back. */
    method FinishTrunc(i: nat, ghost names0: Names, ghost owner0: Owner, ghost disk0: Disk)
      requires Emptying(i, SLOTS, names0, owner0, disk0) && SizesOk(inode, files, names, i)
      requires inode[i].kind < WORD_LIMIT && inode[i].links < WORD_LIMIT
      requires forall k: nat :: k <= NDIRECT ==> inode[i].addrs[k] == 0
      modifies `disk, `logged, `inode
      ensures Valid() && inode == old(inode)[i := old(inode[i]).(size := 0)]
      ensures logged == old(logged) + {InodeBlock(sb, i)}
    {
      ghost var was := inode;
      inode := inode[i := inode[i].(size := 0)];
      forall t: nat | t < SLOTS ensures SlotTied(disk, inode[i], names[i], t) {
      }
      forall j: nat | j < |inode| && j != i ensures StoredAt(disk, sb, inode, j) {
        assert StoredAt(disk, sb, was, j);
      }
      Iupdate(i);
    }

    /** Empties a file: its own blocks become free, and no others.  Its transaction logs
        blocks of the bitmap and the inode's block. */
    method Itrunc(i: nat)
      requires Valid() && i < |inode|
      modifies `disk, `logged, `inode, `names, `owner, `files
      ensures Valid() && files == old(files)[i := []]
      ensures inode == old(inode)[i := old(inode[i]).(size := 0, addrs := inode[i].addrs)]
      ensures forall k: nat :: k <= NDIRECT ==> inode[i].addrs[k] == 0
      ensures FreedOnly(old(disk), disk, sb, old(owner), i)
      ensures |logged - old(logged)| <= (sb.size - 1) / BPB + 2
    {
      assert StoredAt(disk, sb, inode, i);
      StartEmptying(i);
      TruncDirect(i, old(names), old(owner), old(disk));
      TruncRest(i, old(names), old(owner), old(disk));
      OthersSized(old(inode), inode, old(files), files, old(names), names, i);
      TruncBound(sb, old(logged), logged, InodeBlock(sb, i));
      FinishTrunc(i, old(names), old(owner), old(disk));
      FreedExactly(old(disk), disk, old(owner), owner, old(names), i);
    }

    static lemma {:induction false} TruncBound(sb: Super, was: set<nat>, log: set<nat>, last: nat)
      requires OnlyBitmap(sb, was, log) && sb.size > 0
      ensures |log + {last} - was| <= (sb.size - 1) / BPB + 2
    {
      var bits := Range(sb.bmapstart, (sb.size - 1) / BPB + 1);
      RangeCount(sb.bmapstart, (sb.size - 1) / BPB + 1);
      assert log + {last} - was <= bits + {last};
      SubsetCount(log + {last} - was, bits + {last});
    }

    lemma {:induction false} FreedExactly(disk0: Disk, disk': Disk, owner0: Owner, owner': Owner, names0: Names, i: nat)
      requires WellLaid(sb) && |disk0| == |disk'| == sb.size
      requires BitsRight(disk0, sb, owner0, 0) && BitsRight(disk', sb, owner', 0)
      requires Owned(names0, owner0, sb) && Remaining(owner0, owner', i, SLOTS)
      ensures FreedOnly(disk0, disk', sb, owner0, i)
    {
      forall b: nat | b < sb.size ensures BitBlock(sb, b) < sb.size && FreedAt(disk0, disk', sb, owner0, i, b) {
        assert BitRight(disk0, sb, owner0, 0, b) && BitRight(disk', sb, owner', 0, b);
        if b in owner0 {
          assert BlockOwned(names0, owner0, sb, b);
        }
      }
    }
  }

  // A copy that fails

  /** The file system that mkfs makes. */
  const MADE: Super := Super(2000, 200, 32, 45)

  /** With one short file, which has at most a data block and an indirect block, the disk is
      not full. */
  lemma {:induction false} RoomLeft(fs: FileSystem, i: nat)
    requires fs.Valid() && fs.sb == MADE && i < |fs.names| && |fs.files[i]| < BSIZE
    requires forall j: nat, s: nat :: j < |fs.names| && j != i && s < SLOTS ==> fs.names[j][s] == 0
    ensures !Full(fs.disk, fs.sb)
  {
    var row := fs.names[i];
    var m := MADE.Meta();
    assert SizeOk(fs.inode[i], fs.files[i], row);
    var b := if m != row[0] && m != row[INDIRECT] then m
             else if m + 1 != row[0] && m + 1 != row[INDIRECT] then m + 1 else m + 2;
    assert BitRight(fs.disk, fs.sb, fs.owner, 0, b);
    if b in fs.owner {
      assert BlockOwned(fs.names, fs.owner, fs.sb, b);
      OneFile(fs, i, fs.owner[b].0, fs.owner[b].1);
    }
  }

  lemma {:induction false} OneFile(fs: FileSystem, i: nat, j: nat, s: nat)
    requires i < |fs.names| && j < |fs.names| && s < SLOTS && fs.names[j][s] != 0 && Tight(fs.names[i], BSIZE - 1)
    requires forall j: nat, s: nat :: j < |fs.names| && j != i && s < SLOTS ==> fs.names[j][s] == 0
    ensures j == i && (s == 0 || s == INDIRECT)
  {
  }

  lemma {:induction false} NothingNamed(fs: FileSystem)
    requires fs.Valid() && fs.owner == map[]
    ensures forall j: nat, s: nat :: j < |fs.names| && s < SLOTS ==> fs.names[j][s] == 0
  {
    forall j: nat, s: nat | j < |fs.names| && s < SLOTS ensures fs.names[j][s] == 0 {
      assert SlotOwned(fs.names, fs.owner, j, s);
    }
  }

  lemma {:induction false} FirstOver(file: seq<byte>, src: seq<byte>)
    requires |file| == |src| == 2
    ensures Strayed(file, 0, src[..0], src[0..1]) == [src[0], file[1]]
  {
    var f, g := Splice(file, 0, src[..0]), Strayed(file, 0, src[..0], src[0..1]);
    assert |f| == 2 && f[1] == file[1];
    StrayedAt(file, 0, src, 0, 1, 0);
    StrayedAt(file, 0, src, 0, 1, 1);
    assert |g| == 2 && g[0] == src[0] && g[1] == file[1];
  }

  lemma {:induction false} Appended(src: seq<byte>)
    ensures Strayed([], 0, src[..|src|], src[|src|..|src|]) == src
  {
    forall q: nat | q < |src| ensures Strayed([], 0, src[..|src|], src[|src|..|src|])[q] == src[q] {
      StrayedAt([], 0, src, |src|, |src|, q);
    }
  }

  /** Two bytes are written over a file of two, of which only the first can be copied: no
      byte is reported as written, and one has changed. */
  method StrayWrite(fs: FileSystem, i: nat) returns (r: int)
    requires fs.Valid() && i < |fs.inode| && fs.files[i] == [1, 2]
    modifies fs
    ensures fs.Valid() && |fs.inode| == |old(fs.inode)| && r == 0 && fs.files == old(fs.files)[i := [9, 2]]
  {
    FirstOver([1, 2], [9, 9]);
    ghost var stray;
    r, stray := fs.Writei(i, 0, [9, 9], 1);
  }

  method ShortFile() returns (fs: FileSystem, r: int)
    ensures fresh(fs) && fs.Valid() && |fs.inode| > 1 && r == 2 && fs.files[1] == [1, 2]
  {
    fs := new FileSystem(MADE);
    NothingNamed(fs);
    ghost var stray;
    r, stray := fs.Writei(1, 0, [1, 2], 2);
    RoomLeft(fs, 1);
    Appended([1, 2]);
  }

  /** From a new file system on. */
  method StrayExample() returns (first: int, second: int, dst: seq<byte>)
    ensures first == 2 && second == 0 && dst == [9, 2]
  {
    var fs;
    fs, first := ShortFile();
    second := StrayWrite(fs, 1);
    var n;
    n, dst := fs.Readi(1, 0, 2, 2);
    assert [9, 2][0..2] == [9, 2];
  }
}
