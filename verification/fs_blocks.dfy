/** Which inode names which block, and what the blocks of an inode hold: the state
    behind bmap, itrunc, readi and writei of kernel/fs.c. */
module FsBlocks {
  import opened Blocks
  import opened FsDisk

  /** An inode names up to MAXFILE data blocks, slots 0 .. MAXFILE - 1, and one
      indirect block, slot INDIRECT. */
  const INDIRECT: nat := MAXFILE
  const SLOTS: nat := MAXFILE + 1

  type Row = r: seq<nat> | |r| == SLOTS witness seq(SLOTS, _ => 0)
  type Names = seq<Row>
  type Owner = map<nat, (nat, nat)>

  /** The block number in slot `s`, 0 if there is none. */
  function Name(disk: Disk, n: Inode, s: nat): nat
    requires |n.addrs| == NDIRECT + 1 && s < SLOTS
  {
    if s < NDIRECT then n.addrs[s]
    else if s == INDIRECT then n.addrs[NDIRECT]
    else if n.addrs[NDIRECT] == 0 || n.addrs[NDIRECT] >= |disk| then 0
    else GetWord(disk[n.addrs[NDIRECT]], s - NDIRECT)
  }

  ghost predicate SlotTied(disk: Disk, n: Inode, row: Row, s: nat)
    requires |n.addrs| == NDIRECT + 1 && s < SLOTS
  {
    row[s] == Name(disk, n, s)
  }

  ghost predicate RowTied(disk: Disk, n: Inode, row: Row) {
    |n.addrs| == NDIRECT + 1 && forall s: nat :: s < SLOTS ==> SlotTied(disk, n, row, s)
  }

  /** `names` is what the inodes and indirect blocks say, except for inode `e`. */
  ghost predicate RowsTied(disk: Disk, inode: seq<Inode>, names: Names, e: int) {
    |inode| == |names| && forall i :: 0 <= i < |inode| && i != e ==> RowTied(disk, inode[i], names[i])
  }

  // Ownership

  ghost predicate SlotOwned(names: Names, owner: Owner, i: nat, s: nat)
    requires i < |names| && s < SLOTS
  {
    names[i][s] != 0 ==> names[i][s] in owner && owner[names[i][s]] == (i, s)
  }

  ghost predicate BlockOwned(names: Names, owner: Owner, sb: Super, b: nat)
    requires b in owner
  {
    var (i, s) := owner[b];
    sb.Meta() <= b < sb.size && i < |names| && s < SLOTS && names[i][s] == b
  }

  /** Every named block is a data block named exactly once; `owner` says where. */
  ghost predicate Owned(names: Names, owner: Owner, sb: Super) {
    && (forall i: nat, s: nat :: i < |names| && s < SLOTS ==> SlotOwned(names, owner, i, s))
    && (forall b :: b in owner ==> BlockOwned(names, owner, sb, b))
  }

  /** The bitmap marks the metadata, the named blocks, and `spare`, a block just
      allocated and not named yet (0 if there is none). */
  ghost predicate BitRight(disk: Disk, sb: Super, owner: Owner, spare: nat, b: nat)
    requires BitBlock(sb, b) < |disk|
  {
    InUse(disk, sb, b) <==> b < sb.Meta() || b in owner || b == spare
  }

  ghost predicate BitsRight(disk: Disk, sb: Super, owner: Owner, spare: nat)
    requires WellLaid(sb) && |disk| == sb.size
  {
    forall b: nat :: b < sb.size ==> BitBlock(sb, b) < |disk| && BitRight(disk, sb, owner, spare, b)
  }

  ghost predicate SpareOk(sb: Super, owner: Owner, spare: nat) {
    spare == 0 || (sb.Meta() <= spare < sb.size && spare !in owner)
  }

  function Renamed(names: Names, i: nat, s: nat, a: nat): Names
    requires i < |names| && s < SLOTS
  {
    names[i := names[i][s := a]]
  }

  lemma {:induction false} NameGiven(names: Names, owner: Owner, sb: Super, i: nat, s: nat, a: nat)
    requires Owned(names, owner, sb) && i < |names| && s < SLOTS && names[i][s] == 0
    requires a != 0 && SpareOk(sb, owner, a)
    ensures Owned(Renamed(names, i, s, a), owner[a := (i, s)], sb)
  {
    var names', owner' := Renamed(names, i, s, a), owner[a := (i, s)];
    forall j: nat, t: nat | j < |names'| && t < SLOTS ensures SlotOwned(names', owner', j, t) {
      assert SlotOwned(names, owner, j, t);
    }
    forall b | b in owner' ensures BlockOwned(names', owner', sb, b) {
      if b != a {
        assert BlockOwned(names, owner, sb, b);
        var (j, t) := owner[b];
        assert names'[j][t] == if j == i && t == s then a else names[j][t];
      }
    }
  }

  lemma {:induction false} NameDropped(names: Names, owner: Owner, sb: Super, i: nat, s: nat)
    requires Owned(names, owner, sb) && i < |names| && s < SLOTS && names[i][s] != 0
    ensures Owned(Renamed(names, i, s, 0), owner - {names[i][s]}, sb)
  {
    var a := names[i][s];
    var names', owner' := Renamed(names, i, s, 0), owner - {a};
    assert SlotOwned(names, owner, i, s);
    forall j: nat, t: nat | j < |names'| && t < SLOTS ensures SlotOwned(names', owner', j, t) {
      assert SlotOwned(names, owner, j, t);
    }
    forall b | b in owner' ensures BlockOwned(names', owner', sb, b) {
      assert BlockOwned(names, owner, sb, b);
      var (j, t) := owner[b];
      assert names'[j][t] == if j == i && t == s then 0 else names[j][t];
    }
  }

  // Contents

  ghost predicate BlockHolds(b: Block, file: seq<byte>, k: nat) {
    forall j: nat :: j < BSIZE && k * BSIZE + j < |file| ==> b[j] == file[k * BSIZE + j]
  }

  ghost predicate Backed(disk: Disk, row: Row, file: seq<byte>, k: nat)
    requires k < MAXFILE
  {
    k * BSIZE < |file| ==> row[k] != 0 && row[k] < |disk| && BlockHolds(disk[row[k]], file, k)
  }

  /** Every byte of the file is backed by a block: there are no holes. */
  ghost predicate FileOk(disk: Disk, row: Row, file: seq<byte>) {
    |file| <= MAXFILE * BSIZE && forall k: nat :: k < MAXFILE ==> Backed(disk, row, file, k)
  }

  ghost predicate FilesOk(disk: Disk, names: Names, files: seq<seq<byte>>) {
    |files| == |names| && forall i: nat :: i < |names| ==> FileOk(disk, names[i], files[i])
  }

  /** No data block is named beyond `len`.  (The one that starts at `len` may be there,
      left by a write whose copy failed.) */
  ghost predicate Tight(row: Row, len: nat) {
    forall k: nat :: k < MAXFILE && row[k] != 0 ==> k * BSIZE <= len
  }

  lemma {:induction false} FilePrefix(disk: Disk, row: Row, file: seq<byte>, n: nat)
    requires FileOk(disk, row, file) && n <= |file|
    ensures FileOk(disk, row, file[..n])
  {
    forall k: nat | k < MAXFILE ensures Backed(disk, row, file[..n], k) {
      assert Backed(disk, row, file, k);
    }
  }

  // What survives a change of blocks

  ghost predicate SameAt(disk: Disk, disk': Disk, b: nat) {
    b < |disk| == |disk'| && disk'[b] == disk[b]
  }

  lemma {:induction false} RowTiedFrame(disk: Disk, disk': Disk, n: Inode, row: Row)
    requires RowTied(disk, n, row) && |disk| == |disk'|
    requires row[INDIRECT] != 0 ==> SameAt(disk, disk', row[INDIRECT])
    ensures RowTied(disk', n, row)
  {
    assert SlotTied(disk, n, row, INDIRECT);
    forall s: nat | s < SLOTS ensures SlotTied(disk', n, row, s) {
      assert SlotTied(disk, n, row, s);
    }
  }

  lemma {:induction false} FileOkFrame(disk: Disk, disk': Disk, row: Row, file: seq<byte>)
    requires FileOk(disk, row, file) && |disk| == |disk'|
    requires forall k: nat :: k < MAXFILE && row[k] != 0 ==> SameAt(disk, disk', row[k])
    ensures FileOk(disk', row, file)
  {
    forall k: nat | k < MAXFILE ensures Backed(disk', row, file, k) {
      assert Backed(disk, row, file, k);
      assert row[k] != 0 ==> SameAt(disk, disk', row[k]);
    }
  }

  ghost predicate IndirectsSame(disk: Disk, disk': Disk, owner: Owner) {
    forall b :: b in owner && owner[b].1 == INDIRECT ==> SameAt(disk, disk', b)
  }

  ghost predicate DataSame(disk: Disk, disk': Disk, owner: Owner) {
    forall b :: b in owner && owner[b].1 != INDIRECT ==> SameAt(disk, disk', b)
  }

  lemma {:induction false} RowsKept(disk: Disk, disk': Disk, inode: seq<Inode>, names: Names, owner: Owner, sb: Super,
      e: int)
    requires RowsTied(disk, inode, names, e) && Owned(names, owner, sb)
    requires |disk| == |disk'| && IndirectsSame(disk, disk', owner)
    ensures RowsTied(disk', inode, names, e)
  {
    forall i | 0 <= i < |inode| && i != e ensures RowTied(disk', inode[i], names[i]) {
      assert SlotOwned(names, owner, i, INDIRECT);
      RowTiedFrame(disk, disk', inode[i], names[i]);
    }
  }

  lemma {:induction false} FilesKept(disk: Disk, disk': Disk, names: Names, owner: Owner, sb: Super,
      files: seq<seq<byte>>)
    requires FilesOk(disk, names, files) && Owned(names, owner, sb)
    requires |disk| == |disk'| && DataSame(disk, disk', owner)
    ensures FilesOk(disk', names, files)
  {
    forall i: nat | i < |names| ensures FileOk(disk', names[i], files[i]) {
      forall k: nat | k < MAXFILE && names[i][k] != 0 ensures SameAt(disk, disk', names[i][k]) {
        assert SlotOwned(names, owner, i, k);
      }
      FileOkFrame(disk, disk', names[i], files[i]);
    }
  }

  /** The stored inodes are the in-core ones, except for inode `e`. */
  ghost predicate Stored(disk: Disk, sb: Super, inode: seq<Inode>, e: int) {
    forall i: nat :: i < |inode| && i != e ==> StoredAt(disk, sb, inode, i)
  }

  ghost predicate StoredAt(disk: Disk, sb: Super, inode: seq<Inode>, i: nat)
    requires i < |inode|
  {
    InodeBlock(sb, i) < |disk| && StoredInode(disk, sb, i) == inode[i]
  }

  lemma {:induction false} StoredKept(disk: Disk, disk': Disk, sb: Super, inode: seq<Inode>, e: int)
    requires Stored(disk, sb, inode, e) && |disk| == |disk'| == sb.size && |inode| == sb.ninodes && WellLaid(sb)
    requires forall b: nat :: b < sb.bmapstart ==> SameAt(disk, disk', b)
    ensures Stored(disk', sb, inode, e)
  {
    forall i: nat | i < |inode| && i != e ensures StoredAt(disk', sb, inode, i) {
      assert StoredAt(disk, sb, inode, i);
      assert SameAt(disk, disk', InodeBlock(sb, i));
    }
  }

  lemma {:induction false} BitsKept(disk: Disk, disk': Disk, sb: Super, owner: Owner, spare: nat)
    requires WellLaid(sb) && |disk| == |disk'| == sb.size && BitsRight(disk, sb, owner, spare)
    requires forall b: nat :: b < sb.Meta() ==> SameAt(disk, disk', b)
    ensures BitsRight(disk', sb, owner, spare)
  {
    forall b: nat | b < sb.size ensures BitBlock(sb, b) < |disk'| && BitRight(disk', sb, owner, spare, b) {
      BitBlockInMeta(sb, b);
      assert BitRight(disk, sb, owner, spare, b);
      assert SameAt(disk, disk', BitBlock(sb, b));
    }
  }

  // The state between operations, and within one: `spare` is a block allocated and
  // not yet named, `e` an inode being emptied (-1 if there is none)

  ghost predicate Core(sb: Super, disk: Disk, inode: seq<Inode>, names: Names, owner: Owner, spare: nat, e: int) {
    && WellLaid(sb) && |disk| == sb.size && |names| == sb.ninodes
    && RowsTied(disk, inode, names, e) && Owned(names, owner, sb)
    && SpareOk(sb, owner, spare) && BitsRight(disk, sb, owner, spare)
  }

  /** Stated without `owner`: a block is in use exactly if it is metadata or some
      inode names it, and no block is named twice. */
  lemma {:induction false} BitmapExact(sb: Super, disk: Disk, inode: seq<Inode>, names: Names, owner: Owner, b: nat)
    requires Core(sb, disk, inode, names, owner, 0, -1) && b < sb.size
    ensures forall i: nat :: i < |inode| ==> |inode[i].addrs| == NDIRECT + 1
    ensures BitBlock(sb, b) < |disk|
    ensures InUse(disk, sb, b) <==> b < sb.Meta() || exists i: nat, s: nat :: NamedBy(disk, inode, i, s, b)
    ensures forall i: nat, s: nat, j: nat, t: nat ::
      NamedBy(disk, inode, i, s, b) && NamedBy(disk, inode, j, t, b) ==> i == j && s == t
  {
    forall i: nat | i < |inode| ensures |inode[i].addrs| == NDIRECT + 1 {
      assert RowTied(disk, inode[i], names[i]);
    }
    assert BitRight(disk, sb, owner, 0, b);
    forall i: nat, s: nat | NamedBy(disk, inode, i, s, b) ensures b in owner && owner[b] == (i, s) {
      assert RowTied(disk, inode[i], names[i]);
      assert SlotTied(disk, inode[i], names[i], s) && SlotOwned(names, owner, i, s);
    }
    if b in owner {
      var (i, s) := owner[b];
      assert BlockOwned(names, owner, sb, b);
      assert RowTied(disk, inode[i], names[i]);
      assert SlotTied(disk, inode[i], names[i], s);
      assert NamedBy(disk, inode, i, s, b);
    }
  }

  ghost predicate NamedBy(disk: Disk, inode: seq<Inode>, i: nat, s: nat, b: nat) {
    i < |inode| && s < SLOTS && |inode[i].addrs| == NDIRECT + 1 && Name(disk, inode[i], s) == b && b != 0
  }

  // balloc

  function Allocated(disk: Disk, sb: Super, r: nat): (d: Disk)
    requires BitBlock(sb, r) < |disk| && r < |disk| && !InUse(disk, sb, r)
    ensures |d| == |disk|
  {
    disk[BitBlock(sb, r) := SetBit(disk[BitBlock(sb, r)], r % BPB)][r := Zeroed()]
  }

  lemma {:induction false} AllocatedBits(sb: Super, disk: Disk, owner: Owner, r: nat)
    requires WellLaid(sb) && |disk| == sb.size && BitsRight(disk, sb, owner, 0)
    requires r < sb.size && BitBlock(sb, r) < |disk| && !InUse(disk, sb, r)
    ensures sb.Meta() <= r && r !in owner && BitsRight(Allocated(disk, sb, r), sb, owner, r)
  {
    var marked := disk[BitBlock(sb, r) := SetBit(disk[BitBlock(sb, r)], r % BPB)];
    assert BitRight(disk, sb, owner, 0, r);
    forall b: nat | b < sb.size ensures BitBlock(sb, b) < |marked| && BitRight(marked, sb, owner, r, b) {
      BitBlockInMeta(sb, b);
      assert BitRight(disk, sb, owner, 0, b);
      MarkedInUse(disk, sb, r, b);
    }
    BitsKept(marked, Allocated(disk, sb, r), sb, owner, r);
  }

  lemma {:induction false} AllocStep(sb: Super, disk: Disk, inode: seq<Inode>, names: Names, owner: Owner,
      files: seq<seq<byte>>, i: int, r: nat)
    requires Core(sb, disk, inode, names, owner, 0, -1) && FilesOk(disk, names, files) && Stored(disk, sb, inode, i)
    requires r < sb.size && BitBlock(sb, r) < |disk| && !InUse(disk, sb, r)
    ensures Core(sb, Allocated(disk, sb, r), inode, names, owner, r, -1)
    ensures FilesOk(Allocated(disk, sb, r), names, files) && Stored(Allocated(disk, sb, r), sb, inode, i)
  {
    var disk' := Allocated(disk, sb, r);
    AllocatedBits(sb, disk, owner, r);
    BitBlockInMeta(sb, r);
    forall b | b in owner ensures SameAt(disk, disk', b) {
      assert BlockOwned(names, owner, sb, b);
    }
    RowsKept(disk, disk', inode, names, owner, sb, -1);
    FilesKept(disk, disk', names, owner, sb, files);
    StoredKept(disk, disk', sb, inode, i);
  }

  // bmap

  function WithAddr(inode: seq<Inode>, i: nat, s: nat, a: nat): seq<Inode>
    requires i < |inode| && s < |inode[i].addrs|
  {
    inode[i := inode[i].(addrs := inode[i].addrs[s := a])]
  }

  lemma {:induction false} NamedFiles(disk: Disk, names: Names, files: seq<seq<byte>>, i: nat, s: nat, a: nat)
    requires FilesOk(disk, names, files) && i < |names| && s < SLOTS && names[i][s] == 0
    ensures FilesOk(disk, Renamed(names, i, s, a), files)
  {
    var names' := Renamed(names, i, s, a);
    forall j: nat | j < |names'| ensures FileOk(disk, names'[j], files[j]) {
      assert FileOk(disk, names[j], files[j]);
      forall k: nat | k < MAXFILE ensures Backed(disk, names'[j], files[j], k) {
        assert Backed(disk, names[j], files[j], k);
      }
    }
  }

  lemma {:induction false} NamedBits(sb: Super, disk: Disk, owner: Owner, a: nat, at: (nat, nat))
    requires WellLaid(sb) && |disk| == sb.size && BitsRight(disk, sb, owner, a)
    ensures BitsRight(disk, sb, owner[a := at], 0)
  {
    var owner' := owner[a := at];
    forall b: nat | b < sb.size ensures BitRight(disk, sb, owner', 0, b) {
      assert BitRight(disk, sb, owner, a, b);
    }
  }

  /** Naming the spare block in a direct slot. */
  lemma {:induction false} DirectStep(sb: Super, disk: Disk, inode: seq<Inode>, names: Names, owner: Owner,
      files: seq<seq<byte>>, i: nat, s: nat, a: nat)
    requires Core(sb, disk, inode, names, owner, a, -1) && FilesOk(disk, names, files) && Stored(disk, sb, inode, i)
    requires a != 0 && i < |inode| && s < NDIRECT && names[i][s] == 0 && |inode[i].addrs| == NDIRECT + 1
    ensures Core(sb, disk, WithAddr(inode, i, s, a), Renamed(names, i, s, a), owner[a := (i, s)], 0, -1)
    ensures FilesOk(disk, Renamed(names, i, s, a), files) && Stored(disk, sb, WithAddr(inode, i, s, a), i)
  {
    var inode', names' := WithAddr(inode, i, s, a), Renamed(names, i, s, a);
    NameGiven(names, owner, sb, i, s, a);
    NamedFiles(disk, names, files, i, s, a);
    NamedBits(sb, disk, owner, a, (i, s));
    forall t: nat | t < SLOTS ensures SlotTied(disk, inode'[i], names'[i], t) {
      assert SlotTied(disk, inode[i], names[i], t);
    }
    forall j: nat | j < |inode'| && j != i ensures StoredAt(disk, sb, inode', j) {
      assert StoredAt(disk, sb, inode, j);
    }
  }

  /** Naming the spare block, which is zero, as the indirect block. */
  lemma {:induction false} IndirectStep(sb: Super, disk: Disk, inode: seq<Inode>, names: Names, owner: Owner,
      files: seq<seq<byte>>, i: nat, a: nat)
    requires Core(sb, disk, inode, names, owner, a, -1) && FilesOk(disk, names, files) && Stored(disk, sb, inode, i)
    requires a != 0 && i < |inode| && names[i][INDIRECT] == 0 && |inode[i].addrs| == NDIRECT + 1
    requires a < |disk| && disk[a] == Zeroed()
    ensures Core(sb, disk, WithAddr(inode, i, NDIRECT, a), Renamed(names, i, INDIRECT, a), owner[a := (i, INDIRECT)],
        0, -1)
    ensures FilesOk(disk, Renamed(names, i, INDIRECT, a), files) && Stored(disk, sb, WithAddr(inode, i, NDIRECT, a), i)
  {
    var inode', names' := WithAddr(inode, i, NDIRECT, a), Renamed(names, i, INDIRECT, a);
    NameGiven(names, owner, sb, i, INDIRECT, a);
    NamedFiles(disk, names, files, i, INDIRECT, a);
    NamedBits(sb, disk, owner, a, (i, INDIRECT));
    assert SlotTied(disk, inode[i], names[i], INDIRECT);
    forall t: nat | t < SLOTS ensures SlotTied(disk, inode'[i], names'[i], t) {
      assert SlotTied(disk, inode[i], names[i], t);
      if NDIRECT <= t < MAXFILE {
        ZeroedWords(t - NDIRECT);
      }
    }
    forall j: nat | j < |inode'| && j != i ensures StoredAt(disk, sb, inode', j) {
      assert StoredAt(disk, sb, inode, j);
    }
  }

  function Entered(disk: Disk, ind: nat, s: nat, a: nat): (d: Disk)
    requires ind < |disk| && NDIRECT <= s < MAXFILE && a < WORD_LIMIT
    ensures |d| == |disk|
  {
    disk[ind := SetWord(disk[ind], s - NDIRECT, a)]
  }

  lemma {:induction false} EntryRow(disk: Disk, n: Inode, row: Row, ind: nat, s: nat, a: nat)
    requires RowTied(disk, n, row) && row[INDIRECT] == ind != 0 && ind < |disk|
    requires NDIRECT <= s < MAXFILE && a < WORD_LIMIT
    ensures RowTied(Entered(disk, ind, s, a), n, row[s := a])
  {
    assert SlotTied(disk, n, row, INDIRECT);
    var disk', row' := Entered(disk, ind, s, a), row[s := a];
    forall t: nat | t < SLOTS ensures SlotTied(disk', n, row', t) {
      assert SlotTied(disk, n, row, t);
      if NDIRECT <= t < MAXFILE {
        GetAfterSet(disk[ind], s - NDIRECT, a, t - NDIRECT);
      }
    }
  }

  /** Naming the spare block in an entry of the indirect block. */
  lemma {:induction false} EntryStep(sb: Super, disk: Disk, inode: seq<Inode>, names: Names, owner: Owner,
      files: seq<seq<byte>>, i: nat, s: nat, a: nat)
    requires Core(sb, disk, inode, names, owner, a, -1) && FilesOk(disk, names, files) && Stored(disk, sb, inode, i)
    requires a != 0 && i < |inode| && NDIRECT <= s < MAXFILE && names[i][s] == 0
    requires names[i][INDIRECT] != 0
    ensures names[i][INDIRECT] < |disk| && a < WORD_LIMIT
    ensures Core(sb, Entered(disk, names[i][INDIRECT], s, a), inode, Renamed(names, i, s, a), owner[a := (i, s)], 0, -1)
    ensures FilesOk(Entered(disk, names[i][INDIRECT], s, a), Renamed(names, i, s, a), files)
    ensures Stored(Entered(disk, names[i][INDIRECT], s, a), sb, inode, i)
  {
    var ind := names[i][INDIRECT];
    assert SlotOwned(names, owner, i, INDIRECT);
    assert BlockOwned(names, owner, sb, ind);
    var disk', names' := Entered(disk, ind, s, a), Renamed(names, i, s, a);
    NameGiven(names, owner, sb, i, s, a);
    NamedBits(sb, disk, owner, a, (i, s));
    BitsKept(disk, disk', sb, owner[a := (i, s)], 0);
    FilesKept(disk, disk', names, owner, sb, files);
    NamedFiles(disk', names, files, i, s, a);
    StoredKept(disk, disk', sb, inode, i);
    EntryRow(disk, inode[i], names[i], ind, s, a);
    forall j | 0 <= j < |inode| ensures RowTied(disk', inode[j], names'[j]) {
      assert SlotOwned(names, owner, j, INDIRECT);
      if j != i {
        RowTiedFrame(disk, disk', inode[j], names[j]);
      }
    }
  }
}
