/** The virtio disk driver (kernel/virtio_disk.c) and a device that completes each
    request it has been given once, in any order.  Driver methods are stretches of code
    run while holding vdisk_lock; device steps come between any two of them, and between
    the memory accesses of a stretch that the device can see. */
module VirtioDisk {
  import opened Blocks
  import opened VirtioQueue

  type Sector = s: seq<byte> | |s| == 512 witness seq(512, _ => 0)

  /** What is in the buffers and on the disk, by buffer and by sector. */
  datatype Data = Data(bufs: map<nat, Block>, sectors: map<nat, Sector>)

  function BufferOf(bufs: map<nat, Block>, b: nat): Block {
    if b in bufs then bufs[b] else Zeroed()
  }

  function SectorOf(sectors: map<nat, Sector>, s: nat): Sector {
    if s in sectors then sectors[s] else seq(512, _ => 0)
  }

  /** A block of the file system is two sectors. */
  function OnDisk(sectors: map<nat, Sector>, n: nat): Block {
    SectorOf(sectors, 2 * n) + SectorOf(sectors, 2 * n + 1)
  }

  /** What the device reads: `n` sectors from `s` on. */
  function LoadFrom(sectors: map<nat, Sector>, s: nat, n: nat): (data: seq<byte>)
    ensures |data| == 512 * n
    decreases n
  {
    if n == 0 then [] else SectorOf(sectors, s) + LoadFrom(sectors, s + 1, n - 1)
  }

  /** What the device writes: `data`, as many sectors as it has, from `s` on. */
  function StoreTo(sectors: map<nat, Sector>, s: nat, data: seq<byte>): map<nat, Sector>
    decreases |data|
  {
    if |data| < 512 then sectors else StoreTo(sectors[s := data[..512]], s + 1, data[512..])
  }

  /** The two halves of a block go to two sectors. */
  function Halves(sectors: map<nat, Sector>, s: nat, data: Block): map<nat, Sector> {
    sectors[s := data[..512]][s + 1 := data[512..]]
  }

  lemma {:induction false} LoadsBlock(sectors: map<nat, Sector>, n: nat)
    ensures LoadFrom(sectors, 2 * n, 2) == OnDisk(sectors, n)
  {
    assert LoadFrom(sectors, 2 * n + 1, 1) == SectorOf(sectors, 2 * n + 1) + LoadFrom(sectors, 2 * n + 2, 0);
  }

  /** Storing a block changes its two sectors, and no other block. */
  lemma {:induction false} StoresBlock(sectors: map<nat, Sector>, n: nat, data: Block)
    ensures var sectors' := StoreTo(sectors, 2 * n, data);
      && sectors' == Halves(sectors, 2 * n, data)
      && forall k: nat :: OnDisk(sectors', k) == if k == n then data else OnDisk(sectors, k)
  {
    var first := sectors[2 * n := data[..512]];
    assert data[512..][..512] == data[512..] && |data[512..][512..]| == 0;
    assert StoreTo(first, 2 * n + 1, data[512..]) == StoreTo(first[2 * n + 1 := data[512..]], 2 * n + 2, []);
    assert data[..512] + data[512..] == data;
  }

  /** What the device was asked to do, as it read it from the descriptors, and the data it
      moved. */
  datatype Transfer = Transfer(cmd: Command, b: nat, data: seq<byte>)

  /** What the device does next: take an entry of the avail ring, or complete a request. */
  datatype Action = Take | Complete(head: nat)

  /** Where a block starts, computed in 32 bits. */
  function SectorFor(blockno: nat): (s: nat)
    ensures blockno < 0x8000_0000 ==> s == 2 * blockno
    ensures s % 2 == 0
  {
    blockno * 2 % WORD_LIMIT
  }

  /** The j-th wakeup was for the j-th request to complete. */
  ghost predicate WokenOk(posted: seq<Request>, done: seq<nat>, woken: seq<nat>, j: nat) {
    j < |woken| && j < |done| && done[j] < |posted| && woken[j] == posted[done[j]].b
  }

  /** The log of everything that has happened: per request what its buffer held when it was
      posted, and what was transferred; and the buffers woken. */
  datatype Events = Events(sent: seq<Block>, transfers: map<nat, Transfer>, woken: seq<nat>)

  /** A request has been transferred exactly if it has completed, as it was posted, and its
      buffer still holds what was transferred. */
  ghost predicate TransferOk(posted: seq<Request>, ev: Events, d: Data, q: nat)
    requires q < |posted| == |ev.sent|
  {
    var r := posted[q];
    && (q in ev.transfers <==> !r.stage.Waiting? && !r.stage.Taken?)
    && (q in ev.transfers ==>
         && ev.transfers[q].cmd == r.cmd && ev.transfers[q].b == r.b
         && |ev.transfers[q].data| == BSIZE && (r.cmd.write ==> ev.transfers[q].data == ev.sent[q])
         && (Live(r) ==> BufferOf(d.bufs, r.b) == ev.transfers[q].data))
    && (Live(r) && r.cmd.write ==> BufferOf(d.bufs, r.b) == ev.sent[q]) && r.cmd.sector % 2 == 0
  }

  /** What the completed writes, in order of completion, have made of block `n`. */
  ghost function Written(done: seq<nat>, transfers: map<nat, Transfer>, n: nat): seq<byte> {
    if done == [] then Zeroed()
    else
      var q := done[|done| - 1];
      if q in transfers && transfers[q].cmd.write && transfers[q].cmd.sector == 2 * n then transfers[q].data
      else Written(done[..|done| - 1], transfers, n)
  }

  /** A read has got what the writes that completed before it had made of its block. */
  ghost predicate ReadOk(done: seq<nat>, transfers: map<nat, Transfer>, j: nat)
    requires j < |done|
  {
    done[j] in transfers &&
    var t := transfers[done[j]];
    !t.cmd.write ==> t.data == Written(done[..j], transfers, t.cmd.sector / 2)
  }

  ghost predicate BlockOk(done: seq<nat>, transfers: map<nat, Transfer>, d: Data, n: nat) {
    OnDisk(d.sectors, n) == Written(done, transfers, n)
  }

  ghost predicate Logged(h: History, ev: Events, d: Data) {
    && |ev.woken| == h.seen && |ev.sent| == |h.posted|
    && (forall j: nat {:trigger WokenOk(h.posted, h.done, ev.woken, j)} ::
           j < h.seen ==> WokenOk(h.posted, h.done, ev.woken, j))
    && (forall q :: q in ev.transfers ==> q < |h.posted|)
    && (forall q: nat {:trigger TransferOk(h.posted, ev, d, q)} :: q < |h.posted| ==> TransferOk(h.posted, ev, d, q))
    && (forall j: nat {:trigger ReadOk(h.done, ev.transfers, j)} :: j < |h.done| ==> ReadOk(h.done, ev.transfers, j))
    && (forall s: nat {:trigger BlockOk(h.done, ev.transfers, d, s)} :: BlockOk(h.done, ev.transfers, d, s))
  }

  /** `head` is the first descriptor of a request the device has taken and not completed. */
  ghost predicate TakenHead(posted: seq<Request>, q: nat, head: nat) {
    q < |posted| && posted[q].stage == Taken && |posted[q].chain| == 3 && posted[q].chain[0] == head
  }

  ghost predicate InsideOk(posted: seq<Request>, inside: set<nat>) {
    && (forall head: nat :: head in inside ==> exists q: nat :: TakenHead(posted, q, head))
    && (forall q: nat, head: nat {:trigger TakenHead(posted, q, head)} :: TakenHead(posted, q, head) ==> head in inside)
  }

  /** Requests that the device has not taken, or has completed, may change. */
  lemma {:induction false} InsideKept(posted: seq<Request>, posted': seq<Request>, inside: set<nat>)
    requires InsideOk(posted, inside)
    requires forall q: nat, head: nat :: TakenHead(posted, q, head) <==> TakenHead(posted', q, head)
    ensures InsideOk(posted', inside)
  {
    forall head: nat | head in inside ensures exists q: nat :: TakenHead(posted', q, head) {
      var q: nat :| TakenHead(posted, q, head);
      assert TakenHead(posted', q, head);
    }
  }

  // What a device step leaves alone

  ghost predicate Progressed(r: Request, r': Request) {
    && r' == r.(stage := r'.stage)
    && (r'.stage == r.stage || (r.stage.Waiting? && (r'.stage.Taken? || r'.stage.Done?)) ||
        (r.stage.Taken? && r'.stage.Done?))
  }

  /** The device has taken requests and completed some; nothing else has changed. */
  ghost predicate Progress(h: History, h': History) {
    && h'.own == h.own && h'.seen == h.seen && |h'.posted| == |h.posted| && |h.done| <= |h'.done|
    && h'.done[..|h.done|] == h.done
    && forall q: nat {:trigger h'.posted[q]} :: q < |h.posted| ==> Progressed(h.posted[q], h'.posted[q])
  }

  lemma {:induction false} ProgressOn(h0: History, h1: History, h2: History)
    requires Progress(h0, h1) && Progress(h1, h2)
    ensures Progress(h0, h2)
  {
    forall q: nat | q < |h0.posted| ensures Progressed(h0.posted[q], h2.posted[q]) {
      assert Progressed(h0.posted[q], h1.posted[q]) && Progressed(h1.posted[q], h2.posted[q]);
    }
    assert h2.done[..|h0.done|] == h2.done[..|h1.done|][..|h0.done|];
  }

  /** A chain being set up and a buffer without a request stay so while the device works. */
  lemma {:induction false} StaysReady(m: Shared, m': Shared, h: History, h': History, idx: seq<nat>, b: nat,
      cmd: Command)
    requires Progress(h, h') && m'.desc == m.desc && m'.ops == m.ops && |m'.info| == |m.info|
    requires forall i :: 0 <= i < |m.info| && i < |h.own| && h.own[i] == Held ==> m'.info[i] == m.info[i]
    ensures Ready(m, h, idx, b, cmd) ==> Ready(m', h', idx, b, cmd)
    ensures BufferFree(h, b) ==> BufferFree(h', b)
  {
    forall q: nat | q < |h'.posted| && Live(h'.posted[q]) && BufferFree(h, b) ensures h'.posted[q].b != b {
      assert Progressed(h.posted[q], h'.posted[q]);
    }
  }

  class Disk {
    var m: Shared
    var free: seq<bool>
    var usedIdx: nat               // completions looked at, 16 bits
    var busy: set<nat>             // buffers with b->disk set
    var takenIdx: nat              // the device's own place in the avail ring, 16 bits
    var inside: set<nat>           // heads the device has taken and not completed
    var d: Data
    ghost var h: History
    ghost var ev: Events

    ghost predicate Valid()
      reads this
    {
      && Inv(m, h, free, busy) && usedIdx == h.seen % IDX_LIMIT && takenIdx == h.taken % IDX_LIMIT
      && Logged(h, ev, d) && InsideOk(h.posted, inside)
    }

    constructor ()
      ensures Valid() && h.posted == [] && d == Data(map[], map[]) && forall i :: 0 <= i < NUM ==> free[i]
    {
      m := Shared(seq(NUM, _ => Desc(None, 0, 0, 0)), seq(NUM, _ => Command(false, 0)), seq(NUM, _ => Info(0, 0)),
        seq(NUM, _ => 0), 0, seq(NUM, _ => Used(0)), 0);
      free := seq(NUM, _ => true);
      usedIdx, takenIdx := 0, 0;
      busy, inside := {}, {};
      d := Data(map[], map[]);
      h := History([], 0, [], 0, seq(NUM, _ => Own.Free));
      ev := Events([], map[], []);
    }

    /** The holder of a buffer without a request changes its contents. */
    method StoreBuffer(b: nat, data: Block)
      requires Valid() && BufferFree(h, b)
      modifies this`d
      ensures Valid() && d == old(d).(bufs := old(d.bufs)[b := data])
    {
      d := d.(bufs := d.bufs[b := data]);
      forall q: nat | q < |h.posted| ensures TransferOk(h.posted, ev, d, q) {
        assert TransferOk(h.posted, ev, old(d), q);
      }
      forall s: nat ensures BlockOk(h.done, ev.transfers, d, s) {
        assert BlockOk(h.done, ev.transfers, old(d), s);
      }
    }

    // Descriptors

    /** Descriptors have changed hands; nothing else has changed. */
    twostate predicate HandsOnly()
      reads this
    {
      && h == old(h).(own := h.own) && |h.own| == |old(h).own| && busy == old(busy) && ev == old(ev) && d == old(d)
      && usedIdx == old(usedIdx) && takenIdx == old(takenIdx) && inside == old(inside) && m == old(m).(desc := m.desc)
    }

    method AllocDesc() returns (i: int)
      requires Valid()
      modifies this
      ensures Valid() && HandsOnly() && m == old(m) && -1 <= i < NUM
      ensures i == -1 <==> forall k: nat :: k < NUM ==> !old(free[k])
      ensures i == -1 ==> unchanged(this)
      ensures i >= 0 ==> old(free[i]) && old(h.own[i]) == Own.Free && h == OwnH(old(h), i, Held)
      ensures i >= 0 ==> free == old(free)[i := false]
    {
      i := 0;
      while i < NUM
        invariant 0 <= i <= NUM && unchanged(this) && forall k: nat :: k < i ==> !free[k]
      {
        if free[i] {
          assert OwnOk(h, free, i);
          assert m.(desc := m.desc[i := m.desc[i]]) == m;
          ghost var d := m.desc[i];
          HandInv(m, h, free, busy, i, Held, d);
          free := free[i := false];
          h := OwnH(h, i, Held);
          return;
        }
        i := i + 1;
      }
      i := -1;
    }

    /** free_desc; it panics if the descriptor is out of range or free already. */
    method FreeDesc(i: nat)
      requires Valid() && i < NUM && h.own[i] == Held
      modifies this
      ensures Valid() && HandsOnly() && h == OwnH(old(h), i, Own.Free) && free == old(free)[i := true]
      ensures m.desc == old(m.desc)[i := Desc(None, 0, 0, 0)]
    {
      assert OwnOk(h, free, i);
      assert !free[i];
      HandInv(m, h, free, busy, i, Own.Free, Desc(None, 0, 0, 0));
      m := m.(desc := m.desc[i := Desc(None, 0, 0, 0)]);
      free := free[i := true];
      h := OwnH(h, i, Own.Free);
    }

    /** Three held descriptors linked as a chain. */
    ghost predicate HeldChain(c: seq<nat>)
      reads this
    {
      && HeldThree(h, c) && |m.desc| == NUM
      && m.desc[c[0]].flags % 2 == 1 && m.desc[c[0]].next == c[1] && m.desc[c[1]].flags % 2 == 1
      && m.desc[c[1]].next == c[2]
      && m.desc[c[2]].flags % 2 == 0
    }

    /** free_chain: follows the chain to its end. */
    method FreeChain(head: nat, ghost c: seq<nat>)
      requires Valid() && HeldChain(c) && head == c[0]
      modifies this
      ensures Valid() && HandsOnly()
      ensures h.own == old(h.own)[c[0] := Own.Free][c[1] := Own.Free][c[2] := Own.Free]
      ensures free == old(free)[c[0] := true][c[1] := true][c[2] := true]
    {
      var i := head;
      ghost var p := 0;
      while true
        invariant p < 3 && i == c[p] && Valid() && HandsOnly()
        invariant forall k :: p <= k < 3 ==> h.own[c[k]] == Held && m.desc[c[k]] == old(m.desc)[c[k]]
        invariant h.own == (if p == 0 then old(h.own) else if p == 1 then old(h.own)[c[0] := Own.Free]
            else old(h.own)[c[0] := Own.Free][c[1] := Own.Free])
        invariant free == (if p == 0 then old(free) else if p == 1 then old(free)[c[0] := true]
            else old(free)[c[0] := true][c[1] := true])
        decreases 3 - p
      {
        var flag, next := m.desc[i].flags, m.desc[i].next;
        FreeDesc(i);
        if flag % 2 == 1 {
          i := next;
          p := p + 1;
        } else {
          break;
        }
      }
    }

    /** Exactly the descriptors in `idx`, free in `own0` and `free0`, are held. */
    static ghost predicate Holding(own: seq<Own>, free: seq<bool>, idx: seq<nat>, own0: seq<Own>, free0: seq<bool>) {
      && |own0| == |own| == |free| == |free0| == NUM && (forall p, q :: 0 <= p < q < |idx| ==> idx[p] != idx[q])
      && (forall p :: 0 <= p < |idx| ==> idx[p] < NUM && free0[idx[p]] && own0[idx[p]] == Own.Free)
      && (forall i: nat :: i < NUM ==> own[i] == if i in idx then Held else own0[i])
      && (forall i: nat :: i < NUM ==> free[i] == if i in idx then false else free0[i])
    }

    ghost predicate HoldsOnly(idx: seq<nat>, own0: seq<Own>, free0: seq<bool>)
      reads this
    {
      Holding(h.own, free, idx, own0, free0)
    }

    static lemma {:induction false} DropFirst(own: seq<Own>, free: seq<bool>, idx: seq<nat>, own0: seq<Own>,
        free0: seq<bool>)
      requires Holding(own, free, idx, own0, free0) && idx != []
      ensures Holding(own[idx[0] := Own.Free], free[idx[0] := true], idx[1..], own0, free0)
    {
      var rest := idx[1..];
      forall i: nat | i < NUM ensures i in rest <==> i in idx && i != idx[0] {
        if i in idx && i != idx[0] {
          var p :| 0 <= p < |idx| && idx[p] == i;
          assert rest[p - 1] == i;
        }
      }
    }

    /** No three descriptors are free. */
    static ghost predicate FewFree(free: seq<bool>) {
      |free| == NUM && forall x: nat, y: nat, z: nat :: x < y < z < NUM ==> !(free[x] && free[y] && free[z])
    }

    static lemma {:induction false} AtMostTwo(idx: seq<nat>, free: seq<bool>)
      requires |idx| <= 2 && |free| == NUM && forall i: nat :: i < NUM && free[i] ==> i in idx
      ensures FewFree(free)
    {
    }

    /** alloc3_desc: three descriptors, or none at all. */
    method Alloc3Desc() returns (idx: seq<nat>)
      requires Valid()
      modifies this
      ensures Valid() && HandsOnly() && HoldsOnly(idx, old(h.own), old(free)) && (idx == [] || |idx| == 3)
      ensures idx == [] ==> h == old(h) && free == old(free) && FewFree(free)
    {
      idx := [];
      while |idx| < 3
        invariant |idx| <= 3 && Valid() && HandsOnly() && HoldsOnly(idx, old(h.own), old(free))
      {
        var d := AllocDesc();
        if d < 0 {
          AtMostTwo(idx, old(free));
          FreeAll(idx, old(h.own), old(free));
          assert h.own == old(h.own) && free == old(free);
          return [];
        }
        idx := idx + [d];
      }
    }

    method FreeAll(idx: seq<nat>, ghost own0: seq<Own>, ghost free0: seq<bool>)
      requires Valid() && HoldsOnly(idx, own0, free0)
      modifies this
      ensures Valid() && HandsOnly() && HoldsOnly([], own0, free0)
    {
      var j := 0;
      while j < |idx|
        invariant 0 <= j <= |idx| && Valid() && HandsOnly() && HoldsOnly(idx[j..], own0, free0)
      {
        assert idx[j..][0] == idx[j] && idx[j + 1..] == idx[j..][1..];
        DropFirst(h.own, free, idx[j..], own0, free0);
        FreeDesc(idx[j]);
        j := j + 1;
      }
    }

    // virtio_disk_rw

    /** Formats the three descriptors: command header, data, status; the buffer is with
        the disk from now on. */
    method FormatChain(idx: seq<nat>, b: nat, cmd: Command)
      requires Valid() && HeldThree(h, idx) && BufferFree(h, b)
      modifies this`m, this`busy
      ensures Valid() && Ready(m, h, idx, b, cmd) && busy == old(busy) + {b}
    {
      ghost var m0 := m;
      m := m.(ops := m.ops[idx[0] := cmd]);
      m := m.(desc := m.desc[idx[0] := Desc(Op(idx[0]), 16, F_NEXT, idx[1])]);
      m := m.(desc := m.desc[idx[1] := Desc(BufData(b), 1024, (if cmd.write then 0 else F_WRITE) + F_NEXT, idx[2])]);
      m := m.(info := m.info[idx[0] := m.info[idx[0]].(status := 0xff)]);
      m := m.(desc := m.desc[idx[2] := Desc(Status(idx[0]), 1, F_WRITE, 0)]);
      BusyInv(m0, h, free, busy, b);
      busy := busy + {b};
      m := m.(info := m.info[idx[0] := m.info[idx[0]].(b := b)]);
      ScratchInv(m0, m, h, free, busy, idx);
    }

    /** Fills the next avail entry. */
    method FillEntry(idx: seq<nat>, ghost b: nat, ghost cmd: Command)
      requires Valid() && Ready(m, h, idx, b, cmd)
      modifies this`m
      ensures Valid() && Ready(m, h, idx, b, cmd) && m.avail[|h.posted| % NUM] == idx[0]
    {
      RingInv(m, h, free, busy, idx[0]);
      m := m.(avail := m.avail[m.availIdx % NUM := idx[0]]);
    }

    /** Tells the device that the entry is there. */
    method Announce(idx: seq<nat>, b: nat, ghost cmd: Command)
      requires Valid() && Ready(m, h, idx, b, cmd) && BufferFree(h, b) && b in busy && cmd.sector % 2 == 0
      requires m.avail[|h.posted| % NUM] == idx[0]
      modifies this`m, this`h, this`ev
      ensures Valid() && h == PostH(old(h), idx, b, cmd) && ev == old(ev).(sent := old(ev.sent) + [BufferOf(d.bufs, b)])
    {
      AnnounceInv(m, h, free, busy, idx, b, cmd);
      assert busy + {b} == busy;
      m := m.(availIdx := (m.availIdx + 1) % IDX_LIMIT);
      h := PostH(h, idx, b, cmd);
      ev := ev.(sent := ev.sent + [BufferOf(d.bufs, b)]);
      LoggedPosted(old(h), idx, b, cmd, old(ev), d);
      InsideKept(old(h.posted), h.posted, inside);
    }

    static lemma {:induction false} LoggedPosted(h: History, idx: seq<nat>, b: nat, cmd: Command, ev: Events, d: Data)
      requires HeldThree(h, idx) && Logged(h, ev, d) && cmd.sector % 2 == 0
      ensures Logged(PostH(h, idx, b, cmd), ev.(sent := ev.sent + [BufferOf(d.bufs, b)]), d)
    {
      var posted, ev' := PostH(h, idx, b, cmd).posted, ev.(sent := ev.sent + [BufferOf(d.bufs, b)]);
      forall j: nat | j < h.seen ensures WokenOk(posted, h.done, ev.woken, j) {
        assert WokenOk(h.posted, h.done, ev.woken, j);
      }
      forall q: nat | q < |posted| ensures TransferOk(posted, ev', d, q) {
        assert q < |h.posted| ==> TransferOk(h.posted, ev, d, q);
      }
      LoggedReads(h, ev, d, ev');
    }

    /** Reads and sectors depend on completions and transfers only. */
    static lemma {:induction false} LoggedReads(h: History, ev: Events, d: Data, ev': Events)
      requires Logged(h, ev, d) && ev'.transfers == ev.transfers
      ensures forall j: nat {:trigger ReadOk(h.done, ev'.transfers, j)} ::
        j < |h.done| ==> ReadOk(h.done, ev'.transfers, j)
      ensures forall s: nat {:trigger BlockOk(h.done, ev'.transfers, d, s)} :: BlockOk(h.done, ev'.transfers, d, s)
    {
      forall j: nat | j < |h.done| ensures ReadOk(h.done, ev'.transfers, j) {
        assert ReadOk(h.done, ev.transfers, j);
      }
      forall s: nat ensures BlockOk(h.done, ev'.transfers, d, s) {
        assert BlockOk(h.done, ev.transfers, d, s);
      }
    }

    /** virtio_disk_rw up to where it sleeps: for descriptors, or for the completion of
        the request it has posted, whose chain is `idx`.  The device works while the chain
        is being set up, as `during` and `before` say.  The sector is computed in 32 bits. */
    method Begin(b: nat, blockno: nat, write: bool, during: seq<Action>, before: seq<Action>)
      returns (idx: seq<nat>)
      requires Valid() && BufferFree(h, b)
      modifies this
      ensures Valid() && ev.woken == old(ev.woken)
      ensures idx == [] ==> h == old(h) && busy == old(busy) && ev == old(ev) && d == old(d)
      ensures idx == [] ==> FewFree(free)
      ensures idx != [] ==> |idx| == 3 && busy == old(busy) + {b} && h.seen == old(h.seen)
      ensures idx != [] ==> |h.posted| == |old(h.posted)| + 1
      ensures idx != [] ==> h.posted[|h.posted| - 1] == Request(idx, b, Command(write, SectorFor(blockno)), Waiting)
      ensures idx != [] ==> forall q: nat :: q < |old(h.posted)| ==> Progressed(old(h.posted)[q], h.posted[q])
      ensures idx != [] ==> ChainOk(m, h.posted[|h.posted| - 1])
      ensures idx != [] ==> BufferOf(d.bufs, b) == old(BufferOf(d.bufs, b))
      ensures idx != [] ==> ev.sent == old(ev.sent) + [BufferOf(d.bufs, b)]
    {
      var sector := blockno * 2 % WORD_LIMIT;
      idx := Alloc3Desc();
      if idx == [] {
        return;
      }
      PostChain(idx, b, Command(write, sector), during, before);
      assert RequestOk(m, h, busy, |h.posted| - 1);
    }

    /** A change of a buffer, and bwrite up to where it sleeps: whatever the device does meanwhile,
        the request that is posted carries the new contents. */
    method Send(b: nat, blockno: nat, data: Block, during: seq<Action>, before: seq<Action>) returns (idx: seq<nat>)
      requires Valid() && BufferFree(h, b)
      modifies this
      ensures Valid() && ev.woken == old(ev.woken) && BufferOf(d.bufs, b) == data
      ensures idx == [] ==> h == old(h) && busy == old(busy) && ev == old(ev) && FewFree(free)
      ensures idx != [] ==>
        && |h.posted| == |old(h.posted)| + 1 && |h.posted| == |ev.sent|
        && h.posted[|h.posted| - 1] == Request(idx, b, Command(true, SectorFor(blockno)), Waiting)
        && ev.sent[|h.posted| - 1] == data
        && forall q: nat :: q < |old(h.posted)| ==> Progressed(old(h.posted)[q], h.posted[q])
    {
      StoreBuffer(b, data);
      idx := Begin(b, blockno, true, during, before);
    }

    /** Formats three descriptors in hand and posts them, while the device works. */
    method PostChain(idx: seq<nat>, b: nat, cmd: Command, during: seq<Action>, before: seq<Action>)
      requires Valid() && HeldThree(h, idx) && BufferFree(h, b) && cmd.sector % 2 == 0
      modifies this
      ensures Valid() && ev.woken == old(ev.woken) && busy == old(busy) + {b} && h.seen == old(h.seen)
      ensures |h.posted| == |old(h.posted)| + 1 && h.posted[|h.posted| - 1] == Request(idx, b, cmd, Waiting)
      ensures forall q: nat :: q < |old(h.posted)| ==> Progressed(old(h.posted)[q], h.posted[q])
      ensures BufferOf(d.bufs, b) == old(BufferOf(d.bufs, b)) && ev.sent == old(ev.sent) + [BufferOf(d.bufs, b)]
    {
      FormatChain(idx, b, cmd);
      ghost var h1 := h;
      DeviceRuns(during, idx, b, cmd);
      ghost var h2 := h;
      FillEntry(idx, b, cmd);
      DeviceRuns(before, idx, b, cmd);
      ProgressOn(h1, h2, h);
      Announce(idx, b, cmd);
    }

    /** virtio_disk_rw after its request has been seen to: the chain is freed. */
    method Finish(head: nat, ghost q: nat)
      requires Valid() && q < |h.posted| && Live(h.posted[q]) && |h.posted[q].chain| == 3
      requires h.posted[q].chain[0] == head
      requires h.posted[q].b !in busy
      modifies this
      ensures Valid() && |h.posted| == |old(h.posted)| && h.posted[q].stage.Finished?
      ensures h.posted == old(h.posted)[q := old(h.posted)[q].(stage := h.posted[q].stage)]
      ensures h.done == old(h.done) && h.taken == old(h.taken) && h.seen == old(h.seen) && busy == old(busy)
      ensures ev == old(ev) && d == old(d)
      ensures forall p :: 0 <= p < 3 ==> h.posted[q].chain[p] < NUM && free[h.posted[q].chain[p]]
    {
      assert RequestOk(m, h, busy, q);
      FinishInv(m, h, free, busy, q);
      ghost var c := h.posted[q].chain;
      m := m.(info := m.info[head := m.info[head].(b := 0)]);
      LoggedStaged(h, FinishH(h, q), ev, d, q);
      InsideKept(h.posted, FinishH(h, q).posted, inside);
      h := FinishH(h, q);
      FreeChain(head, c);
    }

    static lemma {:induction false} LoggedStaged(h: History, h': History, ev: Events, d: Data, q: nat)
      requires Logged(h, ev, d) && q < |h.posted| && |h'.posted| == |h.posted| && h'.done == h.done && h'.seen == h.seen
      requires h'.posted == h.posted[q := h.posted[q].(stage := h'.posted[q].stage)]
      requires (Live(h'.posted[q]) ==> Live(h.posted[q]))
      requires var r, r' := h.posted[q].stage, h'.posted[q].stage;
        (r.Waiting? || r.Taken?) == (r'.Waiting? || r'.Taken?)
      ensures Logged(h', ev, d)
    {
      forall j: nat | j < h.seen ensures WokenOk(h'.posted, h.done, ev.woken, j) {
        assert WokenOk(h.posted, h.done, ev.woken, j);
      }
      forall w: nat | w < |h'.posted| ensures TransferOk(h'.posted, ev, d, w) {
        assert TransferOk(h.posted, ev, d, w);
      }
    }

    // virtio_disk_intr

    /** Looks at every completion there is: each clears and wakes the buffer of its own
        request.  The device may complete more requests meanwhile: after the k-th one seen
        it works as `during[k]` says. */
    method Intr(during: seq<seq<Action>>)
      requires Valid()
      modifies this
      ensures Valid() && h.seen == |h.done| && old(h.seen) <= h.seen
      ensures |ev.woken| >= |old(ev.woken)| && ev.woken[..old(|ev.woken|)] == old(ev.woken)
      ensures |h.done| >= |old(h.done)| && h.done[..old(|h.done|)] == old(h.done)
      ensures |h.posted| == |old(h.posted)| && busy <= old(busy) && ev.sent == old(ev.sent)
    {
      var k := 0;
      while true
        invariant Valid() && old(h.seen) <= h.seen && 0 <= k
        invariant |ev.woken| >= |old(ev.woken)| && ev.woken[..old(|ev.woken|)] == old(ev.woken)
        invariant |h.done| >= |old(h.done)| && h.done[..old(|h.done|)] == old(h.done)
        invariant |h.posted| == |old(h.posted)| && busy <= old(busy) && ev.sent == old(ev.sent)
        decreases if k < |during| then |during| - k else 0, |h.done| - h.seen
      {
        Windows(m, h, free, busy);
        Wraparound(h.seen, |h.done|);
        if usedIdx == m.usedIdx {
          break;
        }
        SeeOne();
        if k < |during| {
          ghost var none := Command(false, 0);
          DeviceRuns(during[k], [], 0, none);
          k := k + 1;
        }
      }
    }

    method SeeOne()
      requires Valid() && h.seen < |h.done|
      modifies this
      ensures old(h.done[h.seen]) < |old(h.posted)| && Valid() && h == SeeH(old(h)) && d == old(d)
      ensures ev == old(ev).(woken := old(ev.woken) + [old(h.posted)[old(h.done)[old(h.seen)]].b])
      ensures busy == old(busy) - {ev.woken[|ev.woken| - 1]} && ev.woken[|ev.woken| - 1] in old(busy)
    {
      SeeInv(m, h, free, busy);
      Wraparound(h.seen, h.seen);
      var id := m.used[usedIdx % NUM].id;
      assert m.info[id].status == 0;  // or else the driver panics
      var b := m.info[id].b;
      busy := busy - {b};
      LoggedSeen(h, ev, d, b);
      InsideKept(h.posted, SeeH(h).posted, inside);
      ev := ev.(woken := ev.woken + [b]);
      usedIdx := (usedIdx + 1) % IDX_LIMIT;
      h := SeeH(h);
    }

    static lemma {:induction false} LoggedSeen(h: History, ev: Events, d: Data, b: nat)
      requires Logged(h, ev, d) && h.seen < |h.done| && h.done[h.seen] < |h.posted|
      requires h.posted[h.done[h.seen]].stage.Done? && b == h.posted[h.done[h.seen]].b
      ensures Logged(SeeH(h), ev.(woken := ev.woken + [b]), d)
    {
      var h', ev' := SeeH(h), ev.(woken := ev.woken + [b]);
      forall j: nat | j < h'.seen ensures WokenOk(h'.posted, h.done, ev'.woken, j) {
        assert j < h.seen ==> WokenOk(h.posted, h.done, ev.woken, j);
      }
      forall w: nat | w < |h'.posted| ensures TransferOk(h'.posted, ev', d, w) {
        assert TransferOk(h.posted, ev, d, w);
      }
      LoggedReads(h, ev, d, ev');
    }

    // The device

    /** The device takes the next entry of the avail ring, if there is one. */
    method DeviceTake() returns (head: int)
      requires Valid()
      modifies this`takenIdx, this`inside, this`h
      ensures Valid() && (head < 0 <==> old(h.taken) == |old(h.posted)|) && (head < 0 ==> h == old(h))
      ensures head >= 0 ==> old(h.taken) < |old(h.posted)| && h == TakeH(old(h))
      ensures head >= 0 ==> |old(h.posted)[old(h.taken)].chain| == 3 && head == old(h.posted)[old(h.taken)].chain[0]
    {
      Windows(m, h, free, busy);
      Wraparound(h.taken, |h.posted|);
      if takenIdx == m.availIdx {
        return -1;
      }
      assert AvailOk(m, h, h.taken) && RequestOk(m, h, busy, h.taken);
      head := m.avail[takenIdx % NUM];
      takenIdx := (takenIdx + 1) % IDX_LIMIT;
      TakeInv(m, h, free, busy);
      LoggedStaged(h, TakeH(h), ev, d, h.taken);
      InsideTaken(h, inside);
      inside := inside + {head};
      h := TakeH(h);
    }

    static lemma {:induction false} InsideTaken(h: History, inside: set<nat>)
      requires h.taken < |h.posted| && InsideOk(h.posted, inside) && |h.posted[h.taken].chain| == 3
      requires h.posted[h.taken].stage.Waiting?
      ensures InsideOk(TakeH(h).posted, inside + {h.posted[h.taken].chain[0]})
    {
      var posted', head0 := TakeH(h).posted, h.posted[h.taken].chain[0];
      forall head: nat | head in inside + {head0} ensures exists q: nat :: TakenHead(posted', q, head) {
        if head in inside {
          var q: nat :| TakenHead(h.posted, q, head);
          assert TakenHead(posted', q, head);
        } else {
          assert TakenHead(posted', h.taken, head);
        }
      }
      forall q: nat, head: nat | TakenHead(posted', q, head) ensures head in inside + {head0} {
        assert q != h.taken ==> TakenHead(h.posted, q, head);
      }
    }

    /** The device carries out a request it has taken, as the descriptors from `head` on
        describe it, and completes it. */
    method DeviceComplete(head: nat) returns (t: Transfer, ghost q: nat)
      requires Valid() && head in inside
      modifies this`m, this`h, this`ev, this`d, this`inside
      ensures q < |old(h.posted)| && TakenHead(old(h.posted), q, head) && Valid() && h == CompleteH(old(h), q)
      ensures t.cmd == h.posted[q].cmd && t.b == h.posted[q].b && ev == old(ev).(transfers := old(ev.transfers)[q := t])
      ensures |t.data| == BSIZE && t.cmd.sector % 2 == 0
      ensures t.cmd.write ==> t.data == ev.sent[q] && d.bufs == old(d.bufs)
      ensures t.cmd.write ==> d.sectors == Halves(old(d.sectors), t.cmd.sector, t.data)
      ensures !t.cmd.write ==> t.data == OnDisk(old(d.sectors), t.cmd.sector / 2)
      ensures !t.cmd.write ==> d == old(d).(bufs := old(d.bufs)[t.b := t.data])
      ensures m.desc == old(m.desc) && m.ops == old(m.ops) && m.avail == old(m.avail) && m.availIdx == old(m.availIdx)
      ensures head < |old(m.info)| && m.info == old(m.info)[head := old(m.info[head]).(status := 0)]
    {
      q :| TakenHead(h.posted, q, head);
      var i;
      t, i := Carry(head, q);
      DataMoves(d, t);
      CompleteInv(m, h, free, busy, q);
      InsideCompleted(m, h, free, busy, inside, q, head);
      LoggedDone(h, free, busy, m, ev, d, q, t);
      d := Moved(d, t);
      m := CompleteM(m, i);
      inside := inside - {head};
      ev := ev.(transfers := ev.transfers[q := t]);
      h := CompleteH(h, q);
    }

    /** Follows the descriptors from `head` on: what to move, and whose status to set. */
    method Carry(head: nat, ghost q: nat) returns (t: Transfer, i: nat)
      requires Valid() && TakenHead(h.posted, q, head)
      ensures t.cmd == h.posted[q].cmd && t.b == h.posted[q].b && i == head && head < NUM
      ensures |t.data| == BSIZE && t.cmd.sector % 2 == 0
      ensures t.data == if t.cmd.write then ev.sent[q] else OnDisk(d.sectors, t.cmd.sector / 2)
    {
      assert RequestOk(m, h, busy, q) && TransferOk(h.posted, ev, d, q);
      var first := m.desc[head];
      var second := m.desc[first.next];
      var third := m.desc[second.next];
      var cmd, b := m.ops[first.addr.i], second.addr.b;
      assert first.len == 16 && third.len == 1;  // or else the device refuses the request
      LoadsBlock(d.sectors, cmd.sector / 2);
      t := Transfer(cmd, b,
        if cmd.write then BufferOf(d.bufs, b)[..second.len] else LoadFrom(d.sectors, cmd.sector, second.len / 512));
      i := third.addr.i;
    }

    /** The data after a transfer: what was moved is all that changes. */
    static function Moved(d: Data, t: Transfer): Data
      requires |t.data| <= BSIZE
    {
      if t.cmd.write then d.(sectors := StoreTo(d.sectors, t.cmd.sector, t.data))
      else d.(bufs := d.bufs[t.b := t.data + BufferOf(d.bufs, t.b)[|t.data|..]])
    }

    static lemma {:induction false} DataMoves(d: Data, t: Transfer)
      requires |t.data| == BSIZE && t.cmd.sector % 2 == 0
      ensures t.cmd.write ==> Moved(d, t) == d.(sectors := Halves(d.sectors, t.cmd.sector, t.data))
      ensures !t.cmd.write ==> Moved(d, t) == d.(bufs := d.bufs[t.b := t.data])
    {
      StoresBlock(d.sectors, t.cmd.sector / 2, t.data);
      assert t.data + BufferOf(d.bufs, t.b)[BSIZE..] == t.data;
    }

    static lemma {:induction false} InsideCompleted(m: Shared, h: History, free: seq<bool>, busy: set<nat>,
        inside: set<nat>, q: nat, head: nat)
      requires Inv(m, h, free, busy) && InsideOk(h.posted, inside) && TakenHead(h.posted, q, head)
      ensures InsideOk(CompleteH(h, q).posted, inside - {head})
    {
      var posted' := CompleteH(h, q).posted;
      assert RequestOk(m, h, busy, q) && h.own[h.posted[q].chain[0]] == Chain(q, 0);
      forall x: nat | x in inside - {head} ensures exists w: nat :: TakenHead(posted', w, x) {
        var w: nat :| TakenHead(h.posted, w, x);
        assert TakenHead(posted', w, x);
      }
      forall w: nat, x: nat | TakenHead(posted', w, x) ensures x in inside - {head} {
        assert TakenHead(h.posted, w, x);
        assert RequestOk(m, h, busy, w) && h.own[h.posted[w].chain[0]] == Chain(w, 0);
      }
    }

    static lemma {:induction false} LoggedDone(h: History, free: seq<bool>, busy: set<nat>, m: Shared, ev: Events,
        d: Data, q: nat, t: Transfer)
      requires Inv(m, h, free, busy) && Logged(h, ev, d) && q < |h.posted| && h.posted[q].stage == Taken
      requires t.cmd == h.posted[q].cmd && t.b == h.posted[q].b
      requires |t.data| == BSIZE && t.data == if t.cmd.write then ev.sent[q] else OnDisk(d.sectors, t.cmd.sector / 2)
      ensures Logged(CompleteH(h, q), ev.(transfers := ev.transfers[q := t]), Moved(d, t))
    {
      var h', ev', d' := CompleteH(h, q), ev.(transfers := ev.transfers[q := t]), Moved(d, t);
      assert TransferOk(h.posted, ev, d, q);
      DataMoves(d, t);
      forall i: nat | i < h.seen ensures WokenOk(h'.posted, h'.done, ev'.woken, i) {
        assert WokenOk(h.posted, h.done, ev.woken, i);
      }
      forall w: nat | w < |h'.posted| ensures TransferOk(h'.posted, ev', d', w) {
        assert TransferOk(h.posted, ev, d, w);
        assert w < q && Live(h.posted[w]) ==> h.posted[w].b != h.posted[q].b;
        assert q < w && Live(h.posted[w]) ==> h.posted[q].b != h.posted[w].b;
      }
      DoneReads(h, ev, d, q, t);
      forall n: nat ensures BlockOk(h'.done, ev'.transfers, d', n) {
        DoneBlock(h, ev, d, q, t, n);
      }
    }

    static lemma {:induction false} DoneReads(h: History, ev: Events, d: Data, q: nat, t: Transfer)
      requires Logged(h, ev, d) && q !in ev.transfers
      requires !t.cmd.write ==> t.data == OnDisk(d.sectors, t.cmd.sector / 2)
      ensures forall j: nat {:trigger ReadOk(h.done + [q], ev.transfers[q := t], j)} ::
        j <= |h.done| ==> ReadOk(h.done + [q], ev.transfers[q := t], j)
    {
      var done', transfers' := h.done + [q], ev.transfers[q := t];
      forall j: nat | j < |h.done| ensures h.done[j] in ev.transfers {
        assert ReadOk(h.done, ev.transfers, j);
      }
      forall j: nat | j <= |h.done| ensures ReadOk(done', transfers', j) {
        assert done'[..j] == h.done[..j];
        WrittenSame(h.done[..j], ev.transfers, q, t, transfers'[done'[j]].cmd.sector / 2);
        if j < |h.done| {
          assert ReadOk(h.done, ev.transfers, j);
        } else {
          assert BlockOk(h.done, ev.transfers, d, t.cmd.sector / 2) && h.done[..j] == h.done;
        }
      }
    }

    static lemma {:induction false} DoneBlock(h: History, ev: Events, d: Data, q: nat, t: Transfer, n: nat)
      requires Logged(h, ev, d) && q !in ev.transfers && |t.data| == BSIZE && t.cmd.sector % 2 == 0
      ensures BlockOk(h.done + [q], ev.transfers[q := t], Moved(d, t), n)
    {
      forall j: nat | j < |h.done| ensures h.done[j] in ev.transfers {
        assert ReadOk(h.done, ev.transfers, j);
      }
      assert (h.done + [q])[..|h.done|] == h.done;
      assert BlockOk(h.done, ev.transfers, d, n);
      StoresBlock(d.sectors, t.cmd.sector / 2, t.data);
      WrittenSame(h.done, ev.transfers, q, t, n);
    }

    static lemma {:induction false} WrittenSame(done: seq<nat>, transfers: map<nat, Transfer>, q: nat, t: Transfer,
        s: nat)
      requires q !in transfers && forall j :: 0 <= j < |done| ==> done[j] in transfers
      ensures Written(done, transfers[q := t], s) == Written(done, transfers, s)
    {
      if done != [] {
        WrittenSame(done[..|done| - 1], transfers, q, t, s);
      }
    }

    /** Any number of device steps. */
    method DeviceRuns(script: seq<Action>, ghost idx: seq<nat>, ghost b: nat, ghost cmd: Command)
      requires Valid()
      modifies this`m, this`h, this`ev, this`d, this`inside, this`takenIdx
      ensures Valid() && Progress(old(h), h) && m.avail == old(m.avail) && m.availIdx == old(m.availIdx)
      ensures ev == old(ev).(transfers := ev.transfers)
      ensures old(Ready(m, h, idx, b, cmd)) ==> Ready(m, h, idx, b, cmd)
      ensures old(BufferFree(h, b)) ==> BufferFree(h, b) && BufferOf(d.bufs, b) == old(BufferOf(d.bufs, b))
    {
      var i := 0;
      while i < |script|
        invariant 0 <= i <= |script| && Valid() && Progress(old(h), h) && m.avail == old(m.avail)
        invariant m.availIdx == old(m.availIdx)
        invariant ev == old(ev).(transfers := ev.transfers)
        invariant old(Ready(m, h, idx, b, cmd)) ==> Ready(m, h, idx, b, cmd)
        invariant old(BufferFree(h, b)) ==> BufferFree(h, b) && BufferOf(d.bufs, b) == old(BufferOf(d.bufs, b))
      {
        ghost var h1 := h;
        DeviceStep(script[i], idx, b, cmd);
        ProgressOn(old(h), h1, h);
        i := i + 1;
      }
    }

    method DeviceStep(action: Action, ghost idx: seq<nat>, ghost b: nat, ghost cmd: Command)
      requires Valid()
      modifies this`m, this`h, this`ev, this`d, this`inside, this`takenIdx
      ensures Valid() && Progress(old(h), h) && m.avail == old(m.avail) && m.availIdx == old(m.availIdx)
      ensures ev == old(ev).(transfers := ev.transfers)
      ensures old(Ready(m, h, idx, b, cmd)) ==> Ready(m, h, idx, b, cmd)
      ensures old(BufferFree(h, b)) ==> BufferFree(h, b) && BufferOf(d.bufs, b) == old(BufferOf(d.bufs, b))
    {
      if action.Take? {
        assert h.taken < |h.posted| ==> RequestOk(m, h, busy, h.taken);
        var _ := DeviceTake();
        StaysReady(old(m), m, old(h), h, idx, b, cmd);
      } else if action.head in inside {
        var _, q := DeviceComplete(action.head);
        LiveHead(old(m), old(h), free, busy, q);
        StaysReady(old(m), m, old(h), h, idx, b, cmd);
      } else {
        StaysReady(m, m, h, h, idx, b, cmd);
      }
    }

    // Consequences

    /** Every wakeup, the first one too, is for a request whose data has been transferred:
        for its own buffer. */
    lemma {:induction false} WokenAfterTransfer(j: nat)
      requires Valid() && j < |ev.woken|
      ensures j < |h.done| && h.done[j] < |h.posted| && h.done[j] in ev.transfers
      ensures ev.woken[j] == h.posted[h.done[j]].b
    {
      assert WokenOk(h.posted, h.done, ev.woken, j) && DoneOk(h, j);
      assert TransferOk(h.posted, ev, d, h.done[j]);
    }

    /** Wakeup `j` was for request `q`. */
    ghost predicate WokenFor(j: nat, q: nat)
      reads this
    {
      j < |ev.woken| && j < |h.done| && h.done[j] == q
    }

    /** A request has been woken for exactly if the driver has seen it complete, and then
        once. */
    lemma {:induction false} WokenOnce(q: nat)
      requires Valid() && q < |h.posted|
      ensures (exists j: nat :: WokenFor(j, q)) <==> h.posted[q].stage.Seen? || h.posted[q].stage.Finished?
      ensures forall i: nat, j: nat :: WokenFor(i, q) && WokenFor(j, q) ==> i == j
      ensures forall j: nat :: WokenFor(j, q) ==> ev.woken[j] == h.posted[q].b && q in ev.transfers
    {
      assert RequestOk(m, h, busy, q);
      forall j: nat | WokenFor(j, q)
        ensures ev.woken[j] == h.posted[q].b && q in ev.transfers
        ensures h.posted[q].stage == Seen(j) || h.posted[q].stage == Finished(j)
      {
        WokenAfterTransfer(j);
        assert DoneOk(h, j);
      }
      if h.posted[q].stage.Seen? || h.posted[q].stage.Finished? {
        assert WokenFor(h.posted[q].stage.j, q);
      }
    }

    /** When virtio_disk_rw returns from a read, and until then, the buffer holds what the
        writes completed before the read have made of the block; after a write the block
        has got what the buffer held when the request was posted. */
    lemma {:induction false} DataArrives(q: nat)
      requires Valid() && q < |h.posted| && h.posted[q].stage.Seen?
      ensures h.posted[q].stage.j < |h.done| && q in ev.transfers && q < |ev.sent| && h.posted[q].cmd.sector % 2 == 0
      ensures BufferOf(d.bufs, h.posted[q].b) == ev.transfers[q].data
      ensures !h.posted[q].cmd.write ==>
        ev.transfers[q].data == Written(h.done[..h.posted[q].stage.j], ev.transfers, h.posted[q].cmd.sector / 2)
      ensures h.posted[q].cmd.write ==>
        ev.transfers[q].data == ev.sent[q] == Written(h.done[..h.posted[q].stage.j + 1], ev.transfers,
            h.posted[q].cmd.sector / 2)
    {
      var j := h.posted[q].stage.j;
      assert RequestOk(m, h, busy, q) && TransferOk(h.posted, ev, d, q) && ReadOk(h.done, ev.transfers, j);
    }

    /** Every block on the disk, both sectors, is what the writes have made of it, in order of completion. */
    lemma {:induction false} DiskHolds(n: nat)
      requires Valid()
      ensures OnDisk(d.sectors, n) == Written(h.done, ev.transfers, n)
    {
      assert BlockOk(h.done, ev.transfers, d, n);
    }

    /** Free descriptors, descriptors in hand and the chains of live requests partition
        the table. */
    lemma {:induction false} TablePartitioned(i: nat)
      requires Valid() && i < NUM
      ensures free[i] <==> h.own[i] == Own.Free
      ensures h.own[i].Chain? <==> exists q: nat, p: nat :: InChain(q, p, i)
      ensures forall q: nat, p: nat, w: nat, r: nat :: InChain(q, p, i) && InChain(w, r, i) ==> q == w && p == r
    {
      assert OwnOk(h, free, i);
      forall q: nat, p: nat | InChain(q, p, i) ensures h.own[i] == Chain(q, p) {
        assert RequestOk(m, h, busy, q);
      }
      if h.own[i].Chain? {
        assert RequestOk(m, h, busy, h.own[i].q);
        assert InChain(h.own[i].q, h.own[i].p, i);
      }
    }

    ghost predicate InChain(q: nat, p: nat, i: nat)
      reads this
    {
      q < |h.posted| && Live(h.posted[q]) && p < 3 && |h.posted[q].chain| == 3 && h.posted[q].chain[p] == i
    }
  }
}
