/** The buffer cache (kernel/bio.c): NBUF buffers, found by scanning an LRU list,
    recycled from its tail, moved to its front on the last release. */
module BufferCache {
  import opened Common
  import opened Blocks
  import opened LruList

  const ROOTDEV: nat := 1

  datatype Buf = Buf(
    valid: bool,      // has data been read from disk?
    dev: nat,
    blockno: nat,
    refcnt: nat,
    locked: bool,     // sleep lock
    pid: nat,         // process holding the sleep lock
    data: Block)

  predicate Holds(b: Buf, dev: nat, blockno: nat) {
    b.dev == dev && b.blockno == blockno
  }

  predicate SameKey(a: Buf, b: Buf) {
    Holds(a, b.dev, b.blockno)
  }

  /** Among the buffers that carry the same device and block number only the one
      nearest to the front of the list may ever have been handed out.  (Fresh
      buffers all carry device 0, block 0.) */
  ghost predicate OneBufferPerBlock(buf: seq<Buf>, order: seq<nat>, handed: set<nat>)
    requires |buf| == NBUF && Distinct(order)
  {
    forall p, q :: 0 <= p < q < |order| ==> NoClash(buf, order, handed, p, q)
  }

  ghost predicate NoClash(buf: seq<Buf>, order: seq<nat>, handed: set<nat>, p: int, q: int)
    requires |buf| == NBUF && Distinct(order) && 0 <= p < q < |order|
  {
    SameKey(buf[order[p]], buf[order[q]]) ==> order[q] !in handed
  }

  ghost predicate HandedOut(buf: seq<Buf>, handed: set<nat>)
    requires |buf| == NBUF
  {
    forall i :: 0 <= i < NBUF ==> Counted(buf, handed, i)
  }

  ghost predicate Counted(buf: seq<Buf>, handed: set<nat>, i: nat)
    requires |buf| == NBUF && i < NBUF
  {
    (i !in handed ==> buf[i].refcnt == 0 && !buf[i].valid) && (buf[i].locked ==> buf[i].refcnt > 0)
  }

  /** The buffer standing for a block, if one has been handed out for it. */
  ghost predicate Stands(buf: seq<Buf>, handed: set<nat>, i: nat, dev: nat, blockno: nat)
  {
    i < |buf| && i in handed && Holds(buf[i], dev, blockno)
  }

  lemma {:induction false} StandsUnique(buf: seq<Buf>, order: seq<nat>, handed: set<nat>, i: nat, j: nat, dev: nat,
      blockno: nat)
    requires |buf| == NBUF && Permutation(order) && OneBufferPerBlock(buf, order, handed)
    requires Stands(buf, handed, i, dev, blockno) && Stands(buf, handed, j, dev, blockno)
    ensures i == j
  {
    assert i in order && j in order;
    var p :| 0 <= p < |order| && order[p] == i;
    var q :| 0 <= q < |order| && order[q] == j;
    assert p < q ==> NoClash(buf, order, handed, p, q);
    assert q < p ==> NoClash(buf, order, handed, q, p);
  }

  /** What the cache holds for each block of the root device, whichever buffer
      holds it: the contents a reader gets, the number of references, and whether
      the sleep lock is taken. */
  datatype Blockwise = Blockwise(view: seq<Block>, refs: seq<nat>, held: seq<bool>)

  ghost predicate TiedTo(buf: seq<Buf>, handed: set<nat>, disk: seq<Block>, w: Blockwise)
    requires |buf| == NBUF
  {
    && |w.view| == |disk| && |w.refs| == |disk| && |w.held| == |disk|
    && (forall i :: 0 <= i < NBUF ==> BufferTied(buf, handed, disk, w, i))
    && (forall n :: 0 <= n < |disk| ==> BlockTied(buf, handed, disk, w, n))
  }

  ghost predicate BufferTied(buf: seq<Buf>, handed: set<nat>, disk: seq<Block>, w: Blockwise, i: nat)
    requires |buf| == NBUF && i < NBUF
    requires |w.view| == |disk| && |w.refs| == |disk| && |w.held| == |disk|
  {
    i in handed && buf[i].dev == ROOTDEV ==>
      var n := buf[i].blockno;
      && n < |disk|
      && w.refs[n] == buf[i].refcnt
      && w.held[n] == buf[i].locked
      && w.view[n] == if buf[i].valid then buf[i].data else disk[n]
  }

  ghost predicate BlockTied(buf: seq<Buf>, handed: set<nat>, disk: seq<Block>, w: Blockwise, n: nat)
    requires n < |disk|
    requires |w.view| == |disk| && |w.refs| == |disk| && |w.held| == |disk|
  {
    (exists i: nat :: Stands(buf, handed, i, ROOTDEV, n)) ||
    (w.refs[n] == 0 && !w.held[n] && w.view[n] == disk[n])
  }

  /** A block nobody references has the same contents in the cache and on disk,
      so nothing is lost when its buffer is recycled. */
  ghost predicate UnreferencedClean(disk: seq<Block>, w: Blockwise) {
    |w.view| == |disk| && |w.refs| == |disk| && forall n :: 0 <= n < |disk| ==> CleanIfFree(disk, w, n)
  }

  ghost predicate CleanIfFree(disk: seq<Block>, w: Blockwise, n: nat)
    requires |w.view| == |disk| && |w.refs| == |disk| && n < |disk|
  {
    w.refs[n] == 0 ==> w.view[n] == disk[n]
  }

  /** A block reads as before; or nobody refers to it and it reads as on disk, its buffer having
      been recycled. */
  ghost predicate SettlesAt(w: Blockwise, w': Blockwise, disk: seq<Block>, n: nat)
    requires n < |disk| == |w.view| == |w.refs| == |w'.view|
  {
    w'.view[n] == w.view[n] || (w.refs[n] == 0 && w'.view[n] == disk[n])
  }

  ghost predicate Settles(w: Blockwise, w': Blockwise, disk: seq<Block>) {
    && |w.view| == |w.refs| == |w'.view| == |disk|
    && forall n {:trigger SettlesAt(w, w', disk, n)} :: 0 <= n < |disk| ==> SettlesAt(w, w', disk, n)
  }

  /** One more reference to a block. */
  ghost function Claimed(w: Blockwise, dev: nat, n: nat): (r: Blockwise)
    requires dev == ROOTDEV ==> n < |w.refs|
  {
    if dev == ROOTDEV then w.(refs := w.refs[n := w.refs[n] + 1]) else w
  }

  /** One more reference, and the sleep lock. */
  ghost function Got(w: Blockwise, dev: nat, n: nat): (r: Blockwise)
    requires dev == ROOTDEV ==> n < |w.refs| == |w.held|
  {
    if dev == ROOTDEV then Claimed(w, dev, n).(held := w.held[n := true]) else w
  }

  /** The block a buffer stands for shows the contents of the disk again, if the buffer is
      put to another use. */
  ghost function Evicted(w: Blockwise, disk: seq<Block>, x: Buf, handedOut: bool): (r: Blockwise)
    requires |w.view| == |disk| && (handedOut && x.dev == ROOTDEV ==> x.blockno < |disk|)
  {
    if handedOut && x.dev == ROOTDEV then w.(view := w.view[x.blockno := disk[x.blockno]]) else w
  }

  ghost function ClaimW(w: Blockwise, disk: seq<Block>, was: Buf, handedOut: bool, hit: bool,
      dev: nat, n: nat): (r: Blockwise)
    requires |w.view| == |disk| && |w.refs| == |disk| && (dev == ROOTDEV ==> n < |disk|)
    requires handedOut && was.dev == ROOTDEV ==> was.blockno < |disk|
  {
    Claimed(if hit then w else Evicted(w, disk, was, handedOut), dev, n)
  }

  /** Handing out a buffer leaves every block readable as it was, but for one that nobody refers to. */
  lemma {:induction false} GotSettles(disk: seq<Block>, w: Blockwise, was: Buf, handedOut: bool, hit: bool, n: nat)
    requires |w.view| == |w.refs| == |w.held| == |disk| && n < |disk|
    requires handedOut && was.dev == ROOTDEV ==> was.blockno < |disk| && (!hit ==> w.refs[was.blockno] == 0)
    ensures Settles(w, Got(if hit then w else Evicted(w, disk, was, handedOut), ROOTDEV, n), disk)
  {
    var w' := Got(if hit then w else Evicted(w, disk, was, handedOut), ROOTDEV, n);
    forall m | 0 <= m < |disk| ensures SettlesAt(w, w', disk, m) {
    }
  }

  /** Nothing changes when a clean buffer is put to another use. */
  lemma {:induction false} ClaimClean(disk: seq<Block>, w: Blockwise, was: Buf, handedOut: bool, hit: bool, dev: nat,
      n: nat)
    requires |w.held| == |disk| && UnreferencedClean(disk, w) && (dev == ROOTDEV ==> n < |disk|)
    requires handedOut && was.dev == ROOTDEV ==> was.blockno < |disk| && (!hit ==> w.refs[was.blockno] == 0)
    ensures ClaimW(w, disk, was, handedOut, hit, dev, n) == Claimed(w, dev, n)
    ensures UnreferencedClean(disk, Claimed(w, dev, n))
  {
    if handedOut && was.dev == ROOTDEV && !hit {
      assert CleanIfFree(disk, w, was.blockno);
    }
    forall m | 0 <= m < |disk| ensures CleanIfFree(disk, Claimed(w, dev, n), m) {
      assert CleanIfFree(disk, w, m);
    }
  }

  /** Handing out buffer `b`, either because it already carries the block and is
      the first in the list to do so, or because no buffer carries it and `b` is
      unreferenced, keeps every part of the invariant. */
  lemma {:induction false} GotTied(buf: seq<Buf>, order: seq<nat>, handed: set<nat>, disk: seq<Block>, w: Blockwise,
                p: nat, hit: bool, x: Buf)
    requires |buf| == NBUF && Permutation(order) && p < NBUF
    requires OneBufferPerBlock(buf, order, handed) && HandedOut(buf, handed)
    requires TiedTo(buf, handed, disk, w)
    requires x.dev == ROOTDEV ==> x.blockno < |disk|
    requires x.locked == buf[order[p]].locked && x.refcnt == (if hit then buf[order[p]].refcnt + 1 else 1)
    requires hit ==> SameKey(buf[order[p]], x) && x.valid == buf[order[p]].valid && x.data == buf[order[p]].data
    requires hit ==> forall q :: 0 <= q < p ==> !SameKey(buf[order[q]], x)
    requires hit && order[p] !in handed ==> !x.valid
    requires !hit ==> buf[order[p]].refcnt == 0 && !x.valid
    requires !hit ==> forall i :: 0 <= i < NBUF ==> !SameKey(buf[i], x)
    ensures order[p] in handed && buf[order[p]].dev == ROOTDEV ==> buf[order[p]].blockno < |disk|
    ensures OneBufferPerBlock(buf[order[p] := x], order, handed + {order[p]})
    ensures HandedOut(buf[order[p] := x], handed + {order[p]})
    ensures TiedTo(buf[order[p] := x], handed + {order[p]}, disk,
                   ClaimW(w, disk, buf[order[p]], order[p] in handed, hit, x.dev, x.blockno))
  {
    var b := order[p];
    assert Counted(buf, handed, b) && BufferTied(buf, handed, disk, w, b);
    var buf', handed', w' := buf[b := x], handed + {b}, ClaimW(w, disk, buf[b], b in handed, hit, x.dev, x.blockno);
    GotOneBuffer(buf, order, handed, p, hit, x);
    GotSole(buf, order, handed, p, hit, x);
    forall i | 0 <= i < NBUF ensures Counted(buf', handed', i) && BufferTied(buf', handed', disk, w', i) {
      assert Counted(buf, handed, i) && BufferTied(buf, handed, disk, w, i);
      if i == b && x.dev == ROOTDEV {
        assert BlockTied(buf, handed, disk, w, x.blockno);
      } else if i != b && i in handed && b in handed && SameKey(buf[i], buf[b]) {
        StandsUnique(buf, order, handed, i, b, buf[b].dev, buf[b].blockno);
      }
    }
    forall n | 0 <= n < |disk| ensures BlockTied(buf', handed', disk, w', n) {
      assert BlockTied(buf, handed, disk, w, n);
      if Holds(x, ROOTDEV, n) {
        assert Stands(buf', handed', b, ROOTDEV, n);
      } else if i: nat :| i != b && Stands(buf, handed, i, ROOTDEV, n) {
        assert Stands(buf', handed', i, ROOTDEV, n);
      }
    }
  }

  /** Before the hand-out, no buffer but `order[p]` stands for its block. */
  lemma {:induction false} GotSole(buf: seq<Buf>, order: seq<nat>, handed: set<nat>, p: nat, hit: bool, x: Buf)
    requires |buf| == NBUF && Permutation(order) && p < NBUF
    requires OneBufferPerBlock(buf, order, handed)
    requires hit ==> SameKey(buf[order[p]], x)
    requires hit ==> forall q :: 0 <= q < p ==> !SameKey(buf[order[q]], x)
    requires !hit ==> forall i :: 0 <= i < NBUF ==> !SameKey(buf[i], x)
    ensures forall i :: 0 <= i < NBUF && i in handed && SameKey(buf[i], x) ==> hit && i == order[p]
    ensures !hit || order[p] !in handed ==> forall j: nat :: !Stands(buf, handed, j, x.dev, x.blockno)
  {
    forall i | 0 <= i < NBUF && i in handed && SameKey(buf[i], x)
      ensures hit && i == order[p]
    {
      assert i in order;
      var q :| 0 <= q < |order| && order[q] == i;
      assert p < q ==> NoClash(buf, order, handed, p, q);
    }
  }

  lemma {:induction false} GotOneBuffer(buf: seq<Buf>, order: seq<nat>, handed: set<nat>, p: nat, hit: bool, x: Buf)
    requires |buf| == NBUF && Permutation(order) && p < NBUF
    requires OneBufferPerBlock(buf, order, handed)
    requires hit ==> SameKey(buf[order[p]], x)
    requires hit ==> forall q :: 0 <= q < p ==> !SameKey(buf[order[q]], x)
    requires !hit ==> forall i :: 0 <= i < NBUF ==> !SameKey(buf[i], x)
    ensures OneBufferPerBlock(buf[order[p] := x], order, handed + {order[p]})
  {
    var buf', handed' := buf[order[p] := x], handed + {order[p]};
    forall i, j | 0 <= i < j < |order| ensures NoClash(buf', order, handed', i, j) {
      assert NoClash(buf, order, handed, i, j);
      assert i == p && SameKey(buf'[order[i]], buf'[order[j]]) ==> SameKey(buf[order[j]], x);
    }
  }

  lemma {:induction false} MoveToFrontOneBuffer(buf: seq<Buf>, order: seq<nat>, handed: set<nat>, j: nat)
    requires |buf| == NBUF && Permutation(order) && j < NBUF && order[j] in handed
    requires OneBufferPerBlock(buf, order, handed)
    ensures Distinct(MoveToFront(order, j)) && OneBufferPerBlock(buf, MoveToFront(order, j), handed)
  {
    var r := MoveToFront(order, j);
    MoveToFrontPermutation(order, j);
    forall p, q | 0 <= p < q < |r| ensures NoClash(buf, r, handed, p, q) {
      var p' := if p == 0 then j else if p <= j then p - 1 else p;
      var q' := if q <= j then q - 1 else q;
      assert r[p] == order[p'] && r[q] == order[q'];
      assert p' < q' ==> NoClash(buf, order, handed, p', q');
      assert q' < p' ==> NoClash(buf, order, handed, q', p');
    }
  }

  /** Changing one handed-out buffer of the root device, without changing which
      block it stands for, together with that block's entry in `disk` and `w`. */
  lemma {:induction false} UpdateTied(buf: seq<Buf>, order: seq<nat>, handed: set<nat>, disk: seq<Block>, w: Blockwise,
                   b: nat, x: Buf, d: Block, v: Block)
    requires |buf| == NBUF && Permutation(order) && b < NBUF && b in handed
    requires OneBufferPerBlock(buf, order, handed) && HandedOut(buf, handed)
    requires TiedTo(buf, handed, disk, w)
    requires SameKey(buf[b], x) && x.dev == ROOTDEV
    requires x.locked ==> x.refcnt > 0
    requires v == if x.valid then x.data else d
    ensures x.blockno < |disk|
    ensures OneBufferPerBlock(buf[b := x], order, handed)
    ensures HandedOut(buf[b := x], handed)
    ensures TiedTo(buf[b := x], handed, disk[x.blockno := d],
                   Blockwise(w.view[x.blockno := v], w.refs[x.blockno := x.refcnt], w.held[x.blockno := x.locked]))
    ensures UnreferencedClean(disk, w) && (x.refcnt == 0 ==> v == d) ==>
      UnreferencedClean(disk[x.blockno := d],
                   Blockwise(w.view[x.blockno := v], w.refs[x.blockno := x.refcnt], w.held[x.blockno := x.locked]))
  {
    var n, buf' := x.blockno, buf[b := x];
    assert BufferTied(buf, handed, disk, w, b);
    var disk' := disk[n := d];
    var w' := Blockwise(w.view[n := v], w.refs[n := x.refcnt], w.held[n := x.locked]);
    forall i, j | 0 <= i < j < |order| ensures NoClash(buf', order, handed, i, j) {
      assert NoClash(buf, order, handed, i, j);
    }
    forall i | 0 <= i < NBUF ensures Counted(buf', handed, i) && BufferTied(buf', handed, disk', w', i) {
      assert Counted(buf, handed, i) && BufferTied(buf, handed, disk, w, i);
      if i in handed && Holds(buf[i], ROOTDEV, n) {
        StandsUnique(buf, order, handed, i, b, ROOTDEV, n);
      }
    }
    if UnreferencedClean(disk, w) && (x.refcnt == 0 ==> v == d) {
      forall m | 0 <= m < |disk| ensures CleanIfFree(disk', w', m) {
        assert CleanIfFree(disk, w, m);
      }
    }
    forall m | 0 <= m < |disk| ensures BlockTied(buf', handed, disk', w', m) {
      assert BlockTied(buf, handed, disk, w, m);
      if m == n {
        assert Stands(buf', handed, b, ROOTDEV, m);
      } else if i: nat :| Stands(buf, handed, i, ROOTDEV, m) {
        assert Stands(buf', handed, i, ROOTDEV, m);
      }
    }
  }

  /** Changing a handed-out buffer of another device. */
  lemma {:induction false} UpdateForeign(buf: seq<Buf>, order: seq<nat>, handed: set<nat>, disk: seq<Block>,
      w: Blockwise, b: nat, x: Buf)
    requires |buf| == NBUF && Permutation(order) && b < NBUF && b in handed
    requires OneBufferPerBlock(buf, order, handed) && HandedOut(buf, handed) && TiedTo(buf, handed, disk, w)
    requires SameKey(buf[b], x) && x.dev != ROOTDEV && (x.locked ==> x.refcnt > 0)
    ensures OneBufferPerBlock(buf[b := x], order, handed) && HandedOut(buf[b := x], handed)
    ensures TiedTo(buf[b := x], handed, disk, w)
  {
    var buf' := buf[b := x];
    forall i, j | 0 <= i < j < |order| ensures NoClash(buf', order, handed, i, j) {
      assert NoClash(buf, order, handed, i, j);
    }
    forall i | 0 <= i < NBUF ensures Counted(buf', handed, i) && BufferTied(buf', handed, disk, w, i) {
      assert Counted(buf, handed, i) && BufferTied(buf, handed, disk, w, i);
    }
    forall m | 0 <= m < |disk| ensures BlockTied(buf', handed, disk, w, m) {
      assert BlockTied(buf, handed, disk, w, m);
      if i: nat :| Stands(buf, handed, i, ROOTDEV, m) {
        assert Stands(buf', handed, i, ROOTDEV, m);
      }
    }
  }

  class Bcache {
    const buf: array<Buf>
    const next: array<nat>
    const prev: array<nat>
    var disk: seq<Block>
    ghost var trace: seq<seq<Block>>   // the disk after each block write, oldest first
    ghost var order: seq<nat>          // most recently used first
    ghost var handed: set<nat>         // buffers bget has ever returned
    ghost var w: Blockwise

    ghost predicate Valid()
      reads this, buf, next, prev
    {
      && buf.Length == NBUF && next.Length == NBUF + 1 && prev.Length == NBUF + 1
      && next != prev
      && Linked(next[..], prev[..], order) && Permutation(order)
      && OneBufferPerBlock(buf[..], order, handed)
      && HandedOut(buf[..], handed)
      && TiedTo(buf[..], handed, disk, w)
    }

    /** Nothing is lost by recycling a buffer.  The log keeps it so. */
    ghost predicate Clean()
      reads this
    {
      UnreferencedClean(disk, w)
    }

    /** Only blocks of the root device have been asked for. */
    ghost predicate RootOnly()
      reads this, buf
    {
      forall i: nat {:trigger i in handed} :: i < buf.Length && i in handed ==> buf[i].dev == ROOTDEV
    }

    /** binit: all buffers fresh, linked by pushing each to the front. */
    constructor (disk: seq<Block>)
      ensures Valid() && Clean()
      ensures fresh(buf) && fresh(next) && fresh(prev)
      ensures this.disk == disk && trace == [] && handed == {}
      ensures w.view == disk
      ensures forall n :: 0 <= n < |disk| ==> w.refs[n] == 0 && !w.held[n]
    {
      buf := new Buf[NBUF](_ => Buf(false, 0, 0, 0, false, 0, Zeroed()));
      next := new nat[NBUF + 1](_ => HEAD);
      prev := new nat[NBUF + 1](_ => HEAD);
      this.disk := disk;
      trace, order, handed := [], [], {};
      w := Blockwise(disk, seq(|disk|, _ => 0), seq(|disk|, _ => false));
      new;
      var b := 0;
      while b < NBUF
        invariant 0 <= b <= NBUF && |order| == b
        invariant Linked(next[..], prev[..], order)
        invariant forall i :: 0 <= i < b ==> order[i] == b - 1 - i
        invariant this.disk == disk && trace == [] && handed == {}
        invariant w == Blockwise(disk, seq(|disk|, _ => 0), seq(|disk|, _ => false))
        invariant forall i :: 0 <= i < NBUF ==> buf[i] == Buf(false, 0, 0, 0, false, 0, Zeroed())
      {
        PushFrontLinked(next[..], prev[..], order, b);
        InsertFront(b);
        order := [b] + order;
        b := b + 1;
      }
      forall i | 0 <= i < NBUF ensures i in order {
        assert order[NBUF - 1 - i] == i;
      }
    }

    /** Put `b`, which is in no list, at the front. */
    method InsertFront(b: nat)
      requires next.Length == NBUF + 1 && prev.Length == NBUF + 1 && next != prev
      requires b < NBUF && next[HEAD] <= NBUF
      modifies next, prev
      ensures next[..] == old(next[..][b := next[HEAD]][HEAD := b])
      ensures prev[..] == old(prev[..][b := HEAD][next[HEAD] := b])
    {
      next[b] := next[HEAD];
      prev[b] := HEAD;
      prev[next[HEAD]] := b;
      next[HEAD] := b;
    }

    /** The two scans of bget under bcache.lock: forwards for the block, else
        backwards for the least recently used buffer without references. */
    method Scan(dev: nat, blockno: nat) returns (b: int, hit: bool)
      requires Valid()
      ensures hit ==>
        exists p :: 0 <= p < NBUF && b == order[p] && Holds(buf[b], dev, blockno)
                 && forall q :: 0 <= q < p ==> !Holds(buf[order[q]], dev, blockno)
      ensures !hit ==> forall i :: 0 <= i < NBUF ==> !Holds(buf[i], dev, blockno)
      ensures !hit && b >= 0 ==>
        exists p :: 0 <= p < NBUF && b == order[p] && buf[b].refcnt == 0
                 && forall q :: p < q < NBUF ==> buf[order[q]].refcnt > 0
      ensures b < 0 ==> b == -1 && !hit && forall i :: 0 <= i < NBUF ==> buf[i].refcnt > 0
    {
      LinkedEnds(next[..], prev[..], order);
      b := next[HEAD];
      ghost var k := 0;
      while b != HEAD
        invariant 0 <= k <= NBUF && b == Node(order, k + 1)
        invariant forall q :: 0 <= q < k ==> !Holds(buf[order[q]], dev, blockno)
        decreases NBUF - k
      {
        if buf[b].dev == dev && buf[b].blockno == blockno {
          return b, true;
        }
        LinkedAt(next[..], prev[..], order, k);
        b := next[b];
        k := k + 1;
      }
      hit := false;
      forall i | 0 <= i < NBUF ensures !Holds(buf[i], dev, blockno) {
        assert i in order;
      }
      b := prev[HEAD];
      k := NBUF;
      while b != HEAD
        invariant 0 <= k <= NBUF && b == Node(order, k)
        invariant forall q :: k <= q < NBUF ==> buf[order[q]].refcnt > 0
        decreases k
      {
        if buf[b].refcnt == 0 {
          return;
        }
        LinkedAt(next[..], prev[..], order, k - 1);
        b := prev[b];
        k := k - 1;
      }
      forall i | 0 <= i < NBUF ensures buf[i].refcnt > 0 {
        assert i in order;
      }
      b := -1;
    }

    /** bget under bcache.lock: one more reference to a buffer for the block, whoever holds
        its sleep lock, or -1 where the kernel panics because every buffer is referenced.  A
        recycled buffer is the least recently used one without references. */
    method Claim(dev: nat, blockno: nat) returns (b: int)
      requires Valid() && (dev == ROOTDEV ==> blockno < |disk|)
      modifies buf, `handed, `w
      ensures Valid() && (b == -1 || 0 <= b < NBUF)
      ensures b == -1 <==> forall i :: 0 <= i < NBUF ==> old(!Holds(buf[i], dev, blockno) && buf[i].refcnt > 0)
      ensures b == -1 ==> buf[..] == old(buf[..]) && handed == old(handed) && w == old(w)
      ensures b >= 0 ==> handed == old(handed) + {b} && Holds(buf[b], dev, blockno) && buf[b].refcnt > 0
      ensures b >= 0 ==> forall j :: 0 <= j < NBUF && j != b ==> buf[j] == old(buf[j])
      ensures b >= 0 && old(Holds(buf[b], dev, blockno)) ==>
        buf[b] == old(buf[b]).(refcnt := old(buf[b].refcnt) + 1) && w == Claimed(old(w), dev, blockno)
      ensures b >= 0 && old(!Holds(buf[b], dev, blockno)) ==>
        forall i :: 0 <= i < NBUF ==> old(!Holds(buf[i], dev, blockno))
      ensures b >= 0 && old(!Holds(buf[b], dev, blockno)) ==>
        && old(buf[b].refcnt) == 0
        && buf[b] == old(buf[b]).(dev := dev, blockno := blockno, valid := false, refcnt := 1)
        && !buf[b].locked && (b in old(handed) && old(buf[b].dev) == ROOTDEV ==> old(buf[b].blockno) < |disk|)
        && w == Claimed(Evicted(old(w), disk, old(buf[b]), b in old(handed)), dev, blockno)
        && exists p :: 0 <= p < NBUF && order[p] == b && forall q :: p < q < NBUF ==> old(buf[order[q]].refcnt) > 0
      ensures old(Clean()) ==> Clean() && (b >= 0 ==> w == Claimed(old(w), dev, blockno))
    {
      var hit;
      b, hit := Scan(dev, blockno);
      if b >= 0 {
        ghost var p :| 0 <= p < NBUF && b == order[p] &&
          (hit ==> Holds(buf[b], dev, blockno) && forall q :: 0 <= q < p ==> !Holds(buf[order[q]], dev, blockno)) &&
          (!hit ==> buf[b].refcnt == 0 && forall q :: p < q < NBUF ==> buf[order[q]].refcnt > 0);
        HandOut(b, hit, dev, blockno, p);
      }
    }

    /** A reference to buffer `b`, found at place `p` of the list. */
    method HandOut(b: nat, hit: bool, dev: nat, blockno: nat, ghost p: nat)
      requires Valid() && (dev == ROOTDEV ==> blockno < |disk|) && p < NBUF && b == order[p]
      requires hit ==> Holds(buf[b], dev, blockno) && forall q :: 0 <= q < p ==> !Holds(buf[order[q]], dev, blockno)
      requires !hit ==> buf[b].refcnt == 0 && forall i :: 0 <= i < NBUF ==> !Holds(buf[i], dev, blockno)
      modifies buf, `handed, `w
      ensures Valid() && handed == old(handed) + {b}
      ensures hit ==> buf[..] == old(buf[..])[b := old(buf[b]).(refcnt := old(buf[b].refcnt) + 1)]
      ensures hit ==> w == Claimed(old(w), dev, blockno)
      ensures !hit ==>
        && buf[..] == old(buf[..])[b := old(buf[b]).(dev := dev, blockno := blockno, valid := false, refcnt := 1)]
        && !buf[b].locked
        && (b in old(handed) && old(buf[b].dev) == ROOTDEV ==> old(buf[b].blockno) < |disk|)
        && w == Claimed(Evicted(old(w), disk, old(buf[b]), b in old(handed)), dev, blockno)
      ensures old(Clean()) ==> Clean() && w == Claimed(old(w), dev, blockno)
    {
      var x := if hit then buf[b].(refcnt := buf[b].refcnt + 1)
               else buf[b].(dev := dev, blockno := blockno, valid := false, refcnt := 1);
      assert Counted(buf[..], handed, b) && BufferTied(buf[..], handed, disk, w, b);
      GotTied(buf[..], order, handed, disk, w, p, hit, x);
      if Clean() {
        ClaimClean(disk, w, buf[b], b in handed, hit, dev, blockno);
      }
      w := ClaimW(w, disk, buf[b], b in handed, hit, dev, blockno);
      ghost var was := buf[..];
      buf[b] := x;
      assert buf[..] == was[b := x];
      handed := handed + {b};
    }

    /** acquiresleep on a buffer one has a reference to: false where the process sleeps. */
    method AcquireSleep(b: nat, pid: nat) returns (ok: bool)
      requires Valid() && b < NBUF && b in handed && buf[b].refcnt > 0
      modifies buf, `w
      ensures Valid() && (old(Clean()) ==> Clean())
      ensures ok == !old(buf[b].locked)
      ensures !ok ==> buf[..] == old(buf[..]) && w == old(w)
      ensures ok ==> buf[..] == old(buf[..])[b := old(buf[b]).(locked := true, pid := pid)]
      ensures ok && buf[b].dev != ROOTDEV ==> w == old(w)
      ensures ok && buf[b].dev == ROOTDEV ==> Has(b) && w == old(w).(held := old(w.held)[buf[b].blockno := true])
    {
      ok := !buf[b].locked;
      if ok {
        var x := buf[b].(locked := true, pid := pid);
        ghost var n, was := buf[b].blockno, buf[..];
        assert BufferTied(buf[..], handed, disk, w, b);
        if x.dev == ROOTDEV {
          UpdateTied(buf[..], order, handed, disk, w, b, x, disk[n], w.view[n]);
          assert disk[n := disk[n]] == disk && w.view[n := w.view[n]] == w.view && w.refs[n := x.refcnt] == w.refs;
          w := w.(held := w.held[n := true]);
        } else {
          UpdateForeign(buf[..], order, handed, disk, w, b, x);
        }
        buf[b] := x;
        assert buf[..] == was[b := x];
        assert x.dev == ROOTDEV ==> BufferTied(buf[..], handed, disk, w, b);
      }
    }

    /** bget: a referenced, locked buffer for the block; or a referenced one whose sleep
        lock another process holds, for which it then waits; or -1. */
    method Bget(dev: nat, blockno: nat, pid: nat) returns (b: int, waits: bool)
      requires Valid() && (dev == ROOTDEV ==> blockno < |disk|)
      modifies buf, `handed, `w
      ensures Valid() && (b == -1 || 0 <= b < NBUF)
      ensures b == -1 <==> forall i :: 0 <= i < NBUF ==> old(!Holds(buf[i], dev, blockno) && buf[i].refcnt > 0)
      ensures b == -1 ==> !waits && buf[..] == old(buf[..]) && handed == old(handed) && w == old(w)
      ensures b >= 0 ==> handed == old(handed) + {b} && Holds(buf[b], dev, blockno) && buf[b].locked
      ensures b >= 0 ==> forall j :: 0 <= j < NBUF && j != b ==> buf[j] == old(buf[j])
      ensures b >= 0 ==> (waits <==> old(Holds(buf[b], dev, blockno) && buf[b].locked))
      ensures waits ==> buf[b] == old(buf[b]).(refcnt := old(buf[b].refcnt) + 1) && w == Claimed(old(w), dev, blockno)
      ensures b >= 0 && !waits ==> buf[b].pid == pid && (dev == ROOTDEV ==> Has(b))
      ensures b >= 0 && !waits && old(Holds(buf[b], dev, blockno)) ==>
        && buf[b] == old(buf[b]).(refcnt := old(buf[b].refcnt) + 1, locked := true, pid := pid)
        && w == Got(old(w), dev, blockno)
      ensures b >= 0 && old(!Holds(buf[b], dev, blockno)) ==>
        forall i :: 0 <= i < NBUF ==> old(!Holds(buf[i], dev, blockno))
      ensures b >= 0 && old(!Holds(buf[b], dev, blockno)) ==>
        && old(buf[b].refcnt) == 0 && buf[b].refcnt == 1 && !buf[b].valid
        && (b in old(handed) && old(buf[b].dev) == ROOTDEV ==> old(buf[b].blockno) < |disk|)
        && w == Got(Evicted(old(w), disk, old(buf[b]), b in old(handed)), dev, blockno)
        && exists p :: 0 <= p < NBUF && order[p] == b && forall q :: p < q < NBUF ==> old(buf[order[q]].refcnt) > 0
      ensures old(Clean()) ==> Clean() && (b >= 0 && !waits ==> w == Got(old(w), dev, blockno))
    {
      b := Claim(dev, blockno);
      waits := false;
      if b >= 0 {
        var ok := AcquireSleep(b, pid);
        waits := !ok;
      }
    }

    /** A buffer that has been handed out for a block of the root device. */
    ghost predicate Has(b: nat)
      reads this, buf
    {
      && buf.Length == NBUF && b < NBUF && b in handed && buf[b].dev == ROOTDEV
      && |w.view| == |disk| && |w.refs| == |disk| && |w.held| == |disk|
      && BufferTied(buf[..], handed, disk, w, b)
      && (buf[b].locked ==> buf[b].refcnt > 0)
    }

    predicate HoldingSleep(b: nat, pid: nat)
      requires b < buf.Length
      reads buf
    {
      buf[b].locked && buf[b].pid == pid
    }

    /** The rest of bread, once the process has the sleep lock: reads the disk only if the
        buffer is not valid. */
    method Fill(b: nat)
      requires Valid() && Has(b) && buf[b].locked
      modifies buf
      ensures Valid() && (old(Clean()) ==> Clean()) && Has(b)
      ensures buf[..] == old(buf[..])[b := old(buf[b]).(valid := true, data := buf[b].data)]
      ensures buf[b].data == w.view[buf[b].blockno]
    {
      if !buf[b].valid {
        var n := buf[b].blockno;
        var x := buf[b].(data := disk[n], valid := true);
        UpdateTied(buf[..], order, handed, disk, w, b, x, disk[n], disk[n]);
        ghost var was := buf[..];
        buf[b] := x;
        assert buf[..] == was[b := x];
        assert disk[n := disk[n]] == disk;
        assert Blockwise(w.view[n := disk[n]], w.refs[n := x.refcnt], w.held[n := x.locked]) == w;
        assert BufferTied(buf[..], handed, disk, w, b);
      }
    }

    /** bread: a locked buffer whose data is what the cache holds for the block; or it waits
        for the sleep lock of the block's buffer, exactly if another process holds it. */
    method Bread(blockno: nat, pid: nat) returns (b: int, waits: bool)
      requires Valid() && blockno < |disk|
      modifies buf, `handed, `w
      ensures Valid() && (b == -1 || 0 <= b < NBUF) && (waits <==> old(w.held[blockno]))
      ensures b == -1 ==> !waits && w == old(w) && old(w.refs[blockno]) == 0
      ensures b == -1 ==> forall i :: 0 <= i < NBUF ==> old(buf[i].refcnt) > 0
      ensures waits ==> b >= 0 && Holds(buf[b], ROOTDEV, blockno) && w == Claimed(old(w), ROOTDEV, blockno)
      ensures b >= 0 && !waits ==>
        && Has(b) && buf[b].blockno == blockno
        && buf[b].valid && buf[b].data == old(w.view[blockno])
        && HoldingSleep(b, pid)
        && (old(buf[b].refcnt) == 0 || old(Holds(buf[b], ROOTDEV, blockno)))
      ensures old(Clean()) ==> Clean() && (b >= 0 && !waits ==> w == Got(old(w), ROOTDEV, blockno))
      ensures b >= 0 && !waits ==>
        && Settles(old(w), w, disk)
        && w.refs == Got(old(w), ROOTDEV, blockno).refs && w.held == Got(old(w), ROOTDEV, blockno).held
      ensures forall j :: 0 <= j < NBUF && j != b ==> buf[j] == old(buf[j])
      ensures old(handed) <= handed && (old(RootOnly()) ==> RootOnly())
    {
      b, waits := BgetRoot(blockno, pid);
      if b >= 0 && !waits {
        Fill(b);
      }
    }

    /** bget for a block of the root device, in terms of blocks. */
    method BgetRoot(blockno: nat, pid: nat) returns (b: int, waits: bool)
      requires Valid() && blockno < |disk|
      modifies buf, `handed, `w
      ensures Valid() && (b == -1 || 0 <= b < NBUF) && (waits <==> old(w.held[blockno]))
      ensures b == -1 ==> !waits && w == old(w) && old(w.refs[blockno]) == 0
      ensures b == -1 ==> forall i :: 0 <= i < NBUF ==> old(buf[i].refcnt) > 0
      ensures waits ==> b >= 0 && Holds(buf[b], ROOTDEV, blockno) && w == Claimed(old(w), ROOTDEV, blockno)
      ensures b >= 0 && !waits ==>
        && Has(b) && buf[b].blockno == blockno && HoldingSleep(b, pid) && w.view[blockno] == old(w.view[blockno])
        && (old(buf[b].refcnt) == 0 || old(Holds(buf[b], ROOTDEV, blockno)))
      ensures old(Clean()) ==> Clean() && (b >= 0 && !waits ==> w == Got(old(w), ROOTDEV, blockno))
      ensures b >= 0 && !waits ==>
        && Settles(old(w), w, disk)
        && w.refs == Got(old(w), ROOTDEV, blockno).refs && w.held == Got(old(w), ROOTDEV, blockno).held
      ensures forall j :: 0 <= j < NBUF && j != b ==> buf[j] == old(buf[j])
      ensures old(handed) <= handed && (old(RootOnly()) ==> RootOnly())
    {
      ghost var was := buf[..];
      HeldBy(blockno);
      b, waits := Bget(ROOTDEV, blockno, pid);
      if j: nat :| Stands(was, old(handed), j, ROOTDEV, blockno) {
        assert b >= 0 && Stands(buf[..], handed, j, ROOTDEV, blockno);
        StandsUnique(buf[..], order, handed, b, j, ROOTDEV, blockno);
      }
      if b >= 0 && !waits {
        assert BufferTied(was, old(handed), disk, old(w), b);
        GotSettles(disk, old(w), was[b], b in old(handed), Holds(was[b], ROOTDEV, blockno), blockno);
      }
    }

    /** A block is held exactly if the buffer standing for it is locked. */
    lemma {:induction false} HeldBy(blockno: nat)
      requires Valid() && blockno < |disk|
      ensures forall i: nat :: Stands(buf[..], handed, i, ROOTDEV, blockno) ==>
        buf[i].locked == w.held[blockno] && buf[i].refcnt == w.refs[blockno]
      ensures (forall i: nat :: !Stands(buf[..], handed, i, ROOTDEV, blockno)) ==> !w.held[blockno]
      ensures (forall i: nat :: !Stands(buf[..], handed, i, ROOTDEV, blockno)) ==> w.refs[blockno] == 0
      ensures (forall i: nat :: !Stands(buf[..], handed, i, ROOTDEV, blockno)) ==> w.view[blockno] == disk[blockno]
      ensures forall i :: 0 <= i < NBUF && i !in handed ==> !buf[i].locked
    {
      forall i: nat | Stands(buf[..], handed, i, ROOTDEV, blockno)
        ensures buf[i].locked == w.held[blockno] && buf[i].refcnt == w.refs[blockno]
      {
        assert BufferTied(buf[..], handed, disk, w, i);
      }
      assert BlockTied(buf[..], handed, disk, w, blockno);
      forall i | 0 <= i < NBUF && i !in handed ensures !buf[i].locked {
        assert Counted(buf[..], handed, i);
      }
    }

    /** The holder of a buffer changes its contents (memmove, memset, a field). */
    method Store(b: nat, data: Block)
      requires Valid() && Has(b) && buf[b].valid && buf[b].locked
      modifies buf, `w
      ensures Valid() && (old(Clean()) ==> Clean()) && (old(RootOnly()) ==> RootOnly())
      ensures buf[..] == old(buf[..][b := buf[b].(data := data)])
      ensures w == old(w.(view := w.view[buf[b].blockno := data]))
    {
      var x, n := buf[b].(data := data), buf[b].blockno;
      UpdateTied(buf[..], order, handed, disk, w, b, x, disk[n], data);
      ghost var was := buf[..];
      buf[b] := x;
      assert buf[..] == was[b := x];
      assert disk[n := disk[n]] == disk;
      w := w.(view := w.view[n := data]);
      assert Blockwise(w.view, w.refs[n := x.refcnt], w.held[n := x.locked]) == w;
    }

    /** bwrite: one block reaches the disk.  False where the kernel panics. */
    method Bwrite(b: nat, pid: nat) returns (ok: bool)
      requires Valid() && Has(b) && buf[b].valid
      modifies `disk, `trace
      ensures Valid() && (old(Clean()) ==> Clean())
      ensures ok == HoldingSleep(b, pid)
      ensures !ok ==> disk == old(disk) && trace == old(trace)
      ensures ok ==> disk == old(disk)[buf[b].blockno := buf[b].data] && trace == old(trace) + [disk]
    {
      ok := HoldingSleep(b, pid);
      if ok {
        ghost var n := buf[b].blockno;
        UpdateTied(buf[..], order, handed, disk, w, b, buf[b], buf[b].data, buf[b].data);
        assert buf[..][b := buf[b]] == buf[..];
        assert Blockwise(w.view[n := buf[b].data], w.refs[n := buf[b].refcnt], w.held[n := buf[b].locked]) == w;
        disk := disk[buf[b].blockno := buf[b].data];
        trace := trace + [disk];
      }
    }

    /** brelse: unlock, drop the reference, and on the last reference move the
        buffer to the front of the list.  False where the kernel panics.  The cache stays
        clean unless this was the last reference to contents the disk lacks. */
    method Brelse(b: nat, pid: nat) returns (ok: bool)
      requires Valid() && Has(b)
      modifies this`order, this`w, buf, next, prev
      ensures Valid() && (old(RootOnly()) ==> RootOnly())
      ensures old(Clean()) ==>
        (Clean() <==> !ok || old(w.refs[buf[b].blockno] > 1 || w.view[buf[b].blockno] == disk[buf[b].blockno]))
      ensures ok == old(HoldingSleep(b, pid))
      ensures !ok ==> buf[..] == old(buf[..]) && w == old(w) && order == old(order)
      ensures ok ==>
        && old(buf[b].refcnt) > 0
        && buf[..] == old(buf[..][b := buf[b].(refcnt := buf[b].refcnt - 1, locked := false, pid := 0)])
        && var n := buf[b].blockno;
           w == old(w).(refs := old(w.refs[n := w.refs[n] - 1]), held := old(w.held[n := false]))
      ensures ok && buf[b].refcnt > 0 ==> order == old(order)
      ensures ok && buf[b].refcnt == 0 ==>
        exists j :: 0 <= j < NBUF && old(order)[j] == b && order == MoveToFront(old(order), j)
    {
      ok := HoldingSleep(b, pid);
      if ok {
        ReleaseSleep(b);
        DropRef(b);
      }
    }

    /** releasesleep, by the holder. */
    method ReleaseSleep(b: nat)
      requires Valid() && Has(b)
      modifies buf, `w
      ensures Valid() && (old(Clean()) ==> Clean())
      ensures buf[..] == old(buf[..][b := buf[b].(locked := false, pid := 0)])
      ensures w == old(w.(held := w.held[buf[b].blockno := false]))
    {
      var x, n := buf[b].(locked := false, pid := 0), buf[b].blockno;
      assert Clean() ==> CleanIfFree(disk, w, n);
      UpdateTied(buf[..], order, handed, disk, w, b, x, disk[n], w.view[n]);
      ghost var was := buf[..];
      buf[b] := x;
      assert buf[..] == was[b := x];
      assert disk[n := disk[n]] == disk && w.view[n := w.view[n]] == w.view && w.refs[n := x.refcnt] == w.refs;
      w := w.(held := w.held[n := false]);
    }

    /** The rest of brelse, under bcache.lock.  Another process may have taken the sleep lock in
        between. */
    method DropRef(b: nat)
      requires Valid() && Has(b) && buf[b].refcnt > (if buf[b].locked then 1 else 0)
      modifies this`order, this`w, buf, next, prev
      ensures Valid()
      ensures old(Clean()) ==>
        (Clean() <==> old(w.refs[buf[b].blockno] > 1 || w.view[buf[b].blockno] == disk[buf[b].blockno]))
      ensures buf[..] == old(buf[..][b := buf[b].(refcnt := buf[b].refcnt - 1)])
      ensures w == old(w.(refs := w.refs[buf[b].blockno := w.refs[buf[b].blockno] - 1]))
      ensures buf[b].refcnt > 0 ==> order == old(order)
      ensures buf[b].refcnt == 0 ==>
        exists j :: 0 <= j < NBUF && old(order)[j] == b && order == MoveToFront(old(order), j)
    {
      SetReferences(b, buf[b].(refcnt := buf[b].refcnt - 1));
      if buf[b].refcnt == 0 {
        MoveFront(b);
      }
    }

    /** Unlink `b` and put it at the front of the list. */
    method MoveFront(b: nat)
      requires Valid() && b < NBUF && b in handed
      modifies next, prev, `order
      ensures Valid()
      ensures exists j :: 0 <= j < NBUF && old(order)[j] == b && order == MoveToFront(old(order), j)
    {
      assert b in order;
      ghost var j :| 0 <= j < |order| && order[j] == b;
      MoveToFrontPermutation(order, j);
      MoveToFrontOneBuffer(buf[..], order, handed, j);
      Relink(b, j);
    }

    /** The pointer updates of brelse. */
    method Relink(b: nat, ghost j: nat)
      requires next.Length == NBUF + 1 && prev.Length == NBUF + 1 && next != prev
      requires Linked(next[..], prev[..], order) && j < |order| && order[j] == b
      modifies next, prev, `order
      ensures order == MoveToFront(old(order), j)
      ensures Linked(next[..], prev[..], order)
    {
      LinkedAt(next[..], prev[..], order, j);
      UnlinkLinked(next[..], prev[..], order, j);
      ghost var nx, pv := next[..], prev[..];
      prev[next[b]] := prev[b];
      next[prev[b]] := next[b];
      assert prev[..] == pv[nx[b] := pv[b]];
      assert next[..] == nx[pv[b] := nx[b]];
      PushFrontLinked(next[..], prev[..], Without(order, j), b);
      InsertFront(b);
      order := MoveToFront(order, j);
    }

    /** bpin: one more reference, taken by the log for a buffer the caller holds. */
    method Bpin(b: nat)
      requires Valid() && Has(b)
      modifies buf, `w
      ensures Valid() && (old(Clean()) ==> Clean()) && (old(RootOnly()) ==> RootOnly())
      ensures buf[..] == old(buf[..][b := buf[b].(refcnt := buf[b].refcnt + 1)])
      ensures w == old(w.(refs := w.refs[buf[b].blockno := w.refs[buf[b].blockno] + 1]))
    {
      var x, n := buf[b].(refcnt := buf[b].refcnt + 1), buf[b].blockno;
      UpdateTied(buf[..], order, handed, disk, w, b, x, disk[n], w.view[n]);
      SetReferences(b, x);
    }

    /** bunpin: drop the log's reference.  The cache stays clean unless it was the last one
        to contents the disk lacks. */
    method Bunpin(b: nat)
      requires Valid() && Has(b) && buf[b].refcnt > (if buf[b].locked then 1 else 0)
      modifies buf, `w
      ensures Valid() && (old(RootOnly()) ==> RootOnly())
      ensures old(Clean()) ==>
        (Clean() <==> old(w.refs[buf[b].blockno] > 1 || w.view[buf[b].blockno] == disk[buf[b].blockno]))
      ensures buf[..] == old(buf[..][b := buf[b].(refcnt := buf[b].refcnt - 1)])
      ensures w == old(w.(refs := w.refs[buf[b].blockno := w.refs[buf[b].blockno] - 1]))
    {
      var x, n := buf[b].(refcnt := buf[b].refcnt - 1), buf[b].blockno;
      UpdateTied(buf[..], order, handed, disk, w, b, x, disk[n], w.view[n]);
      SetReferences(b, x);
    }

    method SetReferences(b: nat, x: Buf)
      requires Valid() && Has(b) && x == buf[b].(refcnt := x.refcnt) && (x.locked ==> x.refcnt > 0)
      modifies buf, `w
      ensures Valid()
      ensures old(Clean()) ==> (Clean() <==> (x.refcnt == 0 ==> w.view[x.blockno] == disk[x.blockno]))
      ensures buf[..] == old(buf[..][b := x])
      ensures w == old(w.(refs := w.refs[x.blockno := x.refcnt]))
    {
      ghost var n := x.blockno;
      UpdateTied(buf[..], order, handed, disk, w, b, x, disk[n], w.view[n]);
      ghost var was := buf[..];
      buf[b] := x;
      assert buf[..] == was[b := x];
      assert disk[n := disk[n]] == disk && w.view[n := w.view[n]] == w.view && w.held[n := x.locked] == w.held;
      w := w.(refs := w.refs[n := x.refcnt]);
      assert Clean() ==> CleanIfFree(disk, w, n);
    }
  }
}
