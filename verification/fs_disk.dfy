/** The on-disk format of the file system (kernel/fs.h): the allocation bitmap and
    the inode table, as bits and words of disk blocks. */
module FsDisk {
  import opened Blocks

  const BPB: nat := 8192      // bitmap bits per block, BSIZE * 8
  const IPB: nat := 16        // inodes per block, BSIZE / sizeof(struct dinode)
  const NDIRECT: nat := 12
  const NINDIRECT: nat := 256
  const MAXFILE: nat := 268

  type Disk = seq<Block>

  /** The superblock.  Boot block, superblock and log come before the inode blocks,
      the bitmap follows them, then the data blocks. */
  datatype Super = Super(size: nat, ninodes: nat, inodestart: nat, bmapstart: nat) {
    /** The first data block. */
    function Meta(): nat {
      bmapstart + size / BPB + 1
    }
  }

  /** What mkfs lays out; block numbers fit the kernel's signed loop counters. */
  ghost predicate WellLaid(sb: Super) {
    && 2 <= sb.inodestart && sb.inodestart + sb.ninodes / IPB + 1 <= sb.bmapstart
    && sb.Meta() <= sb.size && sb.size + BPB <= 0x8000_0000
  }

  // Bits of bytes and blocks

  /** 1 << k */
  function Mask(k: nat): (m: nat)
    ensures m > 0
  {
    if k == 0 then 1 else 2 * Mask(k - 1)
  }

  /** x & (1 << k) */
  predicate BitOf(x: nat, k: nat) {
    if k == 0 then x % 2 == 1 else BitOf(x / 2, k - 1)
  }

  /** Or-ing in a clear bit is an addition: it sets that bit and no other, and
      stays within the n low bits. */
  lemma {:induction false} SetBitOf(x: nat, k: nat, j: nat, n: nat)
    requires k < n && x < Mask(n) && !BitOf(x, k)
    ensures x + Mask(k) < Mask(n)
    ensures BitOf(x + Mask(k), j) <==> k == j || BitOf(x, j)
  {
    if k > 0 {
      assert (x + Mask(k)) / 2 == x / 2 + Mask(k - 1);
      SetBitOf(x / 2, k - 1, if j > 0 then j - 1 else 0, n - 1);
    }
  }

  lemma {:induction false} ClearBitOf(x: nat, k: nat, j: nat)
    requires BitOf(x, k)
    ensures Mask(k) <= x
    ensures BitOf(x - Mask(k), j) <==> k != j && BitOf(x, j)
  {
    if k > 0 {
      ClearBitOf(x / 2, k - 1, if j > 0 then j - 1 else 0);
      assert (x - Mask(k)) / 2 == x / 2 - Mask(k - 1);
    }
  }

  lemma {:induction false} ByteLimit()
    ensures Mask(8) == 256
  {
    assert Mask(4) == 16;
  }

  predicate GetBit(b: Block, bi: nat)
    requires bi < BPB
  {
    BitOf(b[bi / 8], bi % 8)
  }

  function SetBit(b: Block, bi: nat): (r: Block)
    requires bi < BPB && !GetBit(b, bi)
  {
    SetBitOf(b[bi / 8], bi % 8, 0, 8);
    ByteLimit();
    b[bi / 8 := b[bi / 8] + Mask(bi % 8)]
  }

  function ClearBit(b: Block, bi: nat): (r: Block)
    requires bi < BPB && GetBit(b, bi)
  {
    ClearBitOf(b[bi / 8], bi % 8, 0);
    b[bi / 8 := b[bi / 8] - Mask(bi % 8)]
  }

  lemma {:induction false} GetAfterSetBit(b: Block, bi: nat, j: nat)
    requires bi < BPB && j < BPB && !GetBit(b, bi)
    ensures GetBit(SetBit(b, bi), j) <==> j == bi || GetBit(b, j)
  {
    if j / 8 == bi / 8 {
      ByteLimit();
      SetBitOf(b[bi / 8], bi % 8, j % 8, 8);
    }
  }

  lemma {:induction false} GetAfterClearBit(b: Block, bi: nat, j: nat)
    requires bi < BPB && j < BPB && GetBit(b, bi)
    ensures GetBit(ClearBit(b, bi), j) <==> j != bi && GetBit(b, j)
  {
    if j / 8 == bi / 8 {
      ClearBitOf(b[bi / 8], bi % 8, j % 8);
    }
  }

  // The bitmap of the disk

  /** BBLOCK: the bitmap block holding the bit of block `b`. */
  function BitBlock(sb: Super, b: nat): nat {
    b / BPB + sb.bmapstart
  }

  predicate InUse(disk: Disk, sb: Super, b: nat)
    requires BitBlock(sb, b) < |disk|
  {
    GetBit(disk[BitBlock(sb, b)], b % BPB)
  }

  lemma {:induction false} BitBlockInMeta(sb: Super, b: nat)
    requires WellLaid(sb) && b < sb.size
    ensures sb.bmapstart <= BitBlock(sb, b) < sb.Meta() <= sb.size
  {
  }

  /** Marking `b` in use sets its bit and no other. */
  lemma {:induction false} MarkedInUse(disk: Disk, sb: Super, b: nat, c: nat)
    requires WellLaid(sb) && |disk| == sb.size && b < sb.size && c < sb.size
    requires BitBlock(sb, b) < |disk| && BitBlock(sb, c) < |disk| && !InUse(disk, sb, b)
    ensures InUse(disk[BitBlock(sb, b) := SetBit(disk[BitBlock(sb, b)], b % BPB)], sb, c) <==>
        c == b || InUse(disk, sb, c)
  {
    if c / BPB == b / BPB {
      GetAfterSetBit(disk[BitBlock(sb, b)], b % BPB, c % BPB);
      assert b == b / BPB * BPB + b % BPB && c == c / BPB * BPB + c % BPB;
    }
  }

  lemma {:induction false} MarkedFree(disk: Disk, sb: Super, b: nat, c: nat)
    requires WellLaid(sb) && |disk| == sb.size && b < sb.size && c < sb.size
    requires BitBlock(sb, b) < |disk| && BitBlock(sb, c) < |disk| && InUse(disk, sb, b)
    ensures InUse(disk[BitBlock(sb, b) := ClearBit(disk[BitBlock(sb, b)], b % BPB)], sb, c) <==>
        c != b && InUse(disk, sb, c)
  {
    if c / BPB == b / BPB {
      GetAfterClearBit(disk[BitBlock(sb, b)], b % BPB, c % BPB);
      assert b == b / BPB * BPB + b % BPB && c == c / BPB * BPB + c % BPB;
    }
  }

  // The inode table

  /** An inode: the header words (type and major, minor and nlink), the size, and
      NDIRECT + 1 block numbers. */
  datatype Inode = Inode(kind: nat, links: nat, size: nat, addrs: seq<nat>)

  ghost predicate InodeFits(n: Inode) {
    && |n.addrs| == NDIRECT + 1 && n.kind < WORD_LIMIT && n.links < WORD_LIMIT && n.size < WORD_LIMIT
    && forall k :: 0 <= k < |n.addrs| ==> n.addrs[k] < WORD_LIMIT
  }

  /** IBLOCK: the block holding inode `i`. */
  function InodeBlock(sb: Super, i: nat): nat {
    i / IPB + sb.inodestart
  }

  /** Writing words from index `at` on. */
  function SetWords(b: Block, at: nat, ws: seq<nat>): (r: Block)
    requires at + |ws| <= WORDS && forall k :: 0 <= k < |ws| ==> ws[k] < WORD_LIMIT
  {
    if ws == [] then b
    else SetWord(SetWords(b, at, ws[..|ws| - 1]), at + |ws| - 1, ws[|ws| - 1])
  }

  lemma {:induction false} GetAfterSetWords(b: Block, at: nat, ws: seq<nat>, j: nat)
    requires at + |ws| <= WORDS && j < WORDS
    requires forall k :: 0 <= k < |ws| ==> ws[k] < WORD_LIMIT
    ensures GetWord(SetWords(b, at, ws), j) == if at <= j < at + |ws| then ws[j - at] else GetWord(b, j)
  {
    if ws != [] {
      var front := ws[..|ws| - 1];
      GetAfterSetWords(b, at, front, j);
      GetAfterSet(SetWords(b, at, front), at + |ws| - 1, ws[|ws| - 1], j);
    }
  }

  function WordsOf(n: Inode): seq<nat> {
    [n.kind, n.links, n.size] + n.addrs
  }

  function GetWords(b: Block, at: nat, n: nat): (r: seq<nat>)
    requires at + n <= WORDS
    ensures |r| == n && forall k :: 0 <= k < n ==> r[k] == GetWord(b, at + k)
  {
    seq<nat>(n, k requires 0 <= k < n => GetWord(b, at + k))
  }

  /** Inode `i` as stored on disk. */
  function StoredInode(disk: Disk, sb: Super, i: nat): Inode
    requires InodeBlock(sb, i) < |disk|
  {
    var b, at := disk[InodeBlock(sb, i)], i % IPB * 16;
    Inode(GetWord(b, at), GetWord(b, at + 1), GetWord(b, at + 2), GetWords(b, at + 3, NDIRECT + 1))
  }

  function StoreInode(disk: Disk, sb: Super, i: nat, n: Inode): (r: Disk)
    requires InodeBlock(sb, i) < |disk| && InodeFits(n)
    ensures |r| == |disk|
  {
    disk[InodeBlock(sb, i) := SetWords(disk[InodeBlock(sb, i)], i % IPB * 16, WordsOf(n))]
  }

  /** A stored inode reads back as written, and no other inode changes. */
  lemma {:induction false} StoredAfterStore(disk: Disk, sb: Super, i: nat, n: Inode, j: nat)
    requires InodeBlock(sb, i) < |disk| && InodeBlock(sb, j) < |disk| && InodeFits(n)
    ensures StoredInode(StoreInode(disk, sb, i, n), sb, j) == if i == j then n else StoredInode(disk, sb, j)
  {
    if i / IPB == j / IPB {
      var b, at, ws := disk[InodeBlock(sb, i)], i % IPB * 16, WordsOf(n);
      forall k: nat | k < WORDS
        ensures GetWord(SetWords(b, at, ws), k) == if at <= k < at + |ws| then ws[k - at] else GetWord(b, k)
      {
        GetAfterSetWords(b, at, ws, k);
      }
      assert i == i / IPB * IPB + i % IPB && j == j / IPB * IPB + j % IPB;
      var s, t := StoredInode(StoreInode(disk, sb, i, n), sb, j), StoredInode(disk, sb, j);
      assert i == j ==> s.addrs == n.addrs;
      assert i != j ==> s.addrs == t.addrs;
    }
  }
}
