/** The split virtqueue shared by the disk driver (kernel/virtio_disk.c) and the device
    (sections 2.6 and 5.2 of VIRTIO 1.1): descriptors, rings, and the life of requests. */
module VirtioQueue {
  const NUM: nat := 8
  const IDX_LIMIT: nat := 0x1_0000     // ring indices are 16 bits wide

  const F_NEXT: nat := 1
  const F_WRITE: nat := 2

  /** What a descriptor points to: nothing, a command header, the data of a buffer, or
      a status byte. */
  datatype Addr = None | Op(i: nat) | BufData(b: nat) | Status(i: nat)

  datatype Desc = Desc(addr: Addr, len: nat, flags: nat, next: nat)
  datatype Info = Info(b: nat, status: nat)
  datatype Command = Command(write: bool, sector: nat)
  datatype Used = Used(id: nat)

  /** A request moves through these stages; `j` is its place in the order of
      completion. */
  datatype Stage = Waiting | Taken | Done(j: nat) | Seen(j: nat) | Finished(j: nat)

  datatype Request = Request(chain: seq<nat>, b: nat, cmd: Command, stage: Stage)

  /** What a descriptor is used for: free, allocated and not posted yet, or the p-th of
      the chain of request q. */
  datatype Own = Free | Held | Chain(q: nat, p: nat)

  /** Driver memory that the device can read or write. */
  datatype Shared = Shared(desc: seq<Desc>, ops: seq<Command>, info: seq<Info>, avail: seq<nat>, availIdx: nat,
      used: seq<Used>, usedIdx: nat)

  /** Every request ever posted, the number the device has taken, the requests in order of
      completion, the number of completions the driver has seen, and who owns each
      descriptor. */
  datatype History = History(posted: seq<Request>, taken: nat, done: seq<nat>, seen: nat, own: seq<Own>)

  ghost predicate Live(r: Request) {
    !r.stage.Finished?
  }

  /** The chain of three descriptors of a request: the 16 bytes of the command header, the 1024 of the block,
      and one of status. */
  ghost predicate ChainOk(m: Shared, r: Request) {
    && |m.desc| == NUM && |m.ops| == NUM && |r.chain| == 3 && (forall p :: 0 <= p < 3 ==> r.chain[p] < NUM)
    && m.desc[r.chain[0]].addr == Op(r.chain[0]) && m.desc[r.chain[0]].flags == F_NEXT
    && m.desc[r.chain[0]].next == r.chain[1] && m.desc[r.chain[0]].len == 16
    && m.desc[r.chain[1]].addr == BufData(r.b)
    && m.desc[r.chain[1]].flags == (if r.cmd.write then F_NEXT else F_WRITE + F_NEXT)
    && m.desc[r.chain[1]].next == r.chain[2] && m.desc[r.chain[1]].len == 1024
    && m.desc[r.chain[2]] == Desc(Status(r.chain[0]), 1, F_WRITE, 0)
    && m.ops[r.chain[0]] == r.cmd
  }

  ghost predicate RequestOk(m: Shared, h: History, busy: set<nat>, q: nat)
    requires q < |h.posted| && |m.info| == NUM && |h.own| == NUM
  {
    var r := h.posted[q];
    && (r.stage.Waiting? <==> q >= h.taken)
    && (Live(r) ==>
         && ChainOk(m, r) && (forall p: nat :: p < 3 ==> h.own[r.chain[p]] == Chain(q, p))
         && m.info[r.chain[0]].b == r.b && (r.b in busy <==> !r.stage.Seen?))
    && (r.stage.Waiting? || r.stage.Taken? ==> m.info[r.chain[0]].status == 0xff)
    && (r.stage.Done? ==> h.seen <= r.stage.j < |h.done| && h.done[r.stage.j] == q && m.info[r.chain[0]].status == 0)
    && (r.stage.Seen? || r.stage.Finished? ==> r.stage.j < h.seen && r.stage.j < |h.done| && h.done[r.stage.j] == q)
  }

  ghost predicate OwnOk(h: History, free: seq<bool>, i: nat)
    requires i < |h.own| && i < |free|
  {
    && (free[i] <==> h.own[i] == Free)
    && (h.own[i].Chain? ==>
         && h.own[i].q < |h.posted| && Live(h.posted[h.own[i].q])
         && h.own[i].p < |h.posted[h.own[i].q].chain| && h.posted[h.own[i].q].chain[h.own[i].p] == i)
  }

  ghost predicate DoneOk(h: History, j: nat)
    requires j < |h.done|
  {
    h.done[j] < h.taken && h.done[j] < |h.posted| &&
    (h.posted[h.done[j]].stage == if j >= h.seen then Done(j) else if h.posted[h.done[j]].stage.Seen? then Seen(j)
        else Finished(j))
  }

  /** The rings hold what has been posted and not taken, and completed and not seen. */
  ghost predicate AvailOk(m: Shared, h: History, q: nat)
    requires q < |h.posted|
  {
    |m.avail| == NUM && |h.posted[q].chain| > 0 && m.avail[q % NUM] == h.posted[q].chain[0]
  }

  ghost predicate UsedOk(m: Shared, h: History, j: nat)
    requires j < |h.done|
  {
    && |m.used| == NUM && h.done[j] < |h.posted| && |h.posted[h.done[j]].chain| > 0
    && m.used[j % NUM] == Used(h.posted[h.done[j]].chain[0])
  }

  /** Two live requests never share a buffer. */
  ghost predicate BuffersApart(h: History) {
    forall q: nat, w: nat {:trigger h.posted[q], h.posted[w]} ::
      q < w < |h.posted| && Live(h.posted[q]) && Live(h.posted[w]) ==> h.posted[q].b != h.posted[w].b
  }

  ghost predicate Shapes(m: Shared, h: History, free: seq<bool>) {
    && |m.desc| == NUM && |m.ops| == NUM && |m.info| == NUM && |m.avail| == NUM && |m.used| == NUM && |free| == NUM
    && |h.own| == NUM
    && h.taken <= |h.posted| && h.seen <= |h.done|
  }

  ghost predicate Inv(m: Shared, h: History, free: seq<bool>, busy: set<nat>) {
    && Shapes(m, h, free) && m.availIdx == |h.posted| % IDX_LIMIT && m.usedIdx == |h.done| % IDX_LIMIT
    && (forall q: nat {:trigger RequestOk(m, h, busy, q)} :: q < |h.posted| ==> RequestOk(m, h, busy, q))
    && (forall i: nat {:trigger OwnOk(h, free, i)} :: i < NUM ==> OwnOk(h, free, i))
    && (forall j: nat {:trigger DoneOk(h, j)} :: j < |h.done| ==> DoneOk(h, j))
    && (forall q: nat {:trigger AvailOk(m, h, q)} :: h.taken <= q < |h.posted| ==> AvailOk(m, h, q))
    && (forall j: nat {:trigger UsedOk(m, h, j)} :: h.seen <= j < |h.done| ==> UsedOk(m, h, j))
    && BuffersApart(h)
  }

  // Room in the rings

  /** The head of request `q` says that it is. */
  ghost predicate HeadOwned(h: History, q: nat) {
    && q < |h.posted| && |h.posted[q].chain| > 0
    && h.posted[q].chain[0] < |h.own| && h.own[h.posted[q].chain[0]] == Chain(q, 0)
  }

  /** The heads of different live requests differ. */
  ghost function Heads(h: History, qs: seq<nat>): set<nat>
    requires forall k :: 0 <= k < |qs| ==> HeadOwned(h, qs[k])
  {
    if qs == [] then {}
    else
      assert HeadOwned(h, qs[|qs| - 1]);
      Heads(h, qs[..|qs| - 1]) + {h.posted[qs[|qs| - 1]].chain[0]}
  }

  lemma {:induction false} HeadsCount(h: History, qs: seq<nat>)
    requires forall k :: 0 <= k < |qs| ==> HeadOwned(h, qs[k])
    requires forall k, l :: 0 <= k < l < |qs| ==> qs[k] != qs[l]
    ensures |Heads(h, qs)| == |qs|
    ensures forall i :: i in Heads(h, qs) ==> i < |h.own| && h.own[i].Chain? && h.own[i].q in qs
  {
    if qs != [] {
      HeadsCount(h, qs[..|qs| - 1]);
      assert HeadOwned(h, qs[|qs| - 1]);
    }
  }

  lemma {:induction false} LiveHead(m: Shared, h: History, free: seq<bool>, busy: set<nat>, q: nat)
    requires Inv(m, h, free, busy) && q < |h.posted| && Live(h.posted[q])
    ensures HeadOwned(h, q)
  {
    assert RequestOk(m, h, busy, q);
    assert h.own[h.posted[q].chain[0]] == Chain(q, 0);
  }

  lemma {:induction false} SetOfSmall(s: set<nat>, n: nat)
    requires forall i :: i in s ==> i < n
    ensures |s| <= n
  {
    if n == 0 {
      assert s == {};
    } else if n - 1 in s {
      SetOfSmall(s - {n - 1}, n - 1);
    } else {
      SetOfSmall(s, n - 1);
    }
  }

  /** Waiting requests, by number. */
  ghost function WaitingOnes(h: History): (qs: seq<nat>)
    requires h.taken <= |h.posted|
    ensures |qs| == |h.posted| - h.taken && forall k :: 0 <= k < |qs| ==> qs[k] == h.taken + k
  {
    seq(|h.posted| - h.taken, k => h.taken + k)
  }

  lemma {:induction false} WaitingHeads(m: Shared, h: History, free: seq<bool>, busy: set<nat>)
    requires Inv(m, h, free, busy)
    ensures forall k :: 0 <= k < |WaitingOnes(h)| ==> HeadOwned(h, WaitingOnes(h)[k])
  {
    var qs := WaitingOnes(h);
    forall k | 0 <= k < |qs| ensures HeadOwned(h, qs[k]) {
      assert RequestOk(m, h, busy, qs[k]);
      LiveHead(m, h, free, busy, qs[k]);
    }
  }

  /** The avail ring has room for another entry whenever a descriptor is held: an entry
      the device has not taken is never overwritten. */
  lemma {:induction false} AvailRoom(m: Shared, h: History, free: seq<bool>, busy: set<nat>, i: nat)
    requires Inv(m, h, free, busy) && i < NUM && h.own[i] == Held
    ensures |h.posted| - h.taken < NUM
  {
    var qs := WaitingOnes(h);
    WaitingHeads(m, h, free, busy);
    HeadsCount(h, qs);
    assert i !in Heads(h, qs);
    SetOfSmall(Heads(h, qs) + {i}, NUM);
  }

  lemma {:induction false} UnseenHeads(m: Shared, h: History, free: seq<bool>, busy: set<nat>)
    requires Inv(m, h, free, busy)
    ensures forall k :: 0 <= k < |h.done[h.seen..]| ==>
      HeadOwned(h, h.done[h.seen..][k]) && h.posted[h.done[h.seen..][k]].stage == Done(h.seen + k)
    ensures forall k, l :: 0 <= k < l < |h.done[h.seen..]| ==> h.done[h.seen..][k] != h.done[h.seen..][l]
  {
    var qs := h.done[h.seen..];
    forall k | 0 <= k < |qs| ensures HeadOwned(h, qs[k]) && h.posted[qs[k]].stage == Done(h.seen + k) {
      assert DoneOk(h, h.seen + k);
      LiveHead(m, h, free, busy, qs[k]);
    }
    forall k, l | 0 <= k < l < |qs| ensures qs[k] != qs[l] {
      assert h.posted[qs[k]].stage == Done(h.seen + k) && h.posted[qs[l]].stage == Done(h.seen + l);
    }
  }

  /** The used ring has room for the completion of any request still in the device's
      hands. */
  lemma {:induction false} UsedRoom(m: Shared, h: History, free: seq<bool>, busy: set<nat>, q: nat)
    requires Inv(m, h, free, busy) && q < |h.posted| && h.posted[q].stage == Taken
    ensures |h.done| - h.seen < NUM
  {
    var qs := h.done[h.seen..];
    UnseenHeads(m, h, free, busy);
    LiveHead(m, h, free, busy, q);
    forall k | 0 <= k < |qs| ensures qs[k] != q {
      assert h.posted[qs[k]].stage == Done(h.seen + k);
    }
    HeadsAndOne(h, qs, q);
  }

  lemma {:induction false} HeadsAndOne(h: History, qs: seq<nat>, q: nat)
    requires |h.own| == NUM && HeadOwned(h, q) && forall k :: 0 <= k < |qs| ==> HeadOwned(h, qs[k]) && qs[k] != q
    requires forall k, l :: 0 <= k < l < |qs| ==> qs[k] != qs[l]
    ensures |qs| < NUM
  {
    HeadsCount(h, qs);
    var i := h.posted[q].chain[0];
    assert i !in Heads(h, qs);
    SetOfSmall(Heads(h, qs) + {i}, NUM);
  }

  lemma {:induction false} Windows(m: Shared, h: History, free: seq<bool>, busy: set<nat>)
    requires Inv(m, h, free, busy)
    ensures |h.done| - h.seen <= NUM && |h.posted| - h.taken <= NUM
  {
    WaitingHeads(m, h, free, busy);
    HeadsCount(h, WaitingOnes(h));
    SetOfSmall(Heads(h, WaitingOnes(h)), NUM);
    UnseenHeads(m, h, free, busy);
    HeadsCount(h, h.done[h.seen..]);
    SetOfSmall(Heads(h, h.done[h.seen..]), NUM);
  }

  /** 16-bit indices tell apart counts that are at most NUM apart, and give the right
      slot, because NUM divides 65536. */
  lemma {:induction false} Wraparound(x: nat, y: nat)
    requires x <= y <= x + NUM
    ensures x % IDX_LIMIT == y % IDX_LIMIT <==> x == y
    ensures x % IDX_LIMIT % NUM == x % NUM && (x % IDX_LIMIT + 1) % IDX_LIMIT == (x + 1) % IDX_LIMIT
  {
    assert x == x / IDX_LIMIT * 8192 * NUM + x % IDX_LIMIT;
  }

  lemma {:induction false} SlotsApart(x: nat, q: nat, y: nat)
    requires x <= q < y < x + NUM
    ensures q % NUM != y % NUM
  {
  }

  // Steps of the device

  ghost function Staged(h: History, q: nat, stage: Stage): History
    requires q < |h.posted|
  {
    h.(posted := h.posted[q := h.posted[q].(stage := stage)])
  }

  ghost function TakeH(h: History): History
    requires h.taken < |h.posted|
  {
    Staged(h, h.taken, Taken).(taken := h.taken + 1)
  }

  lemma {:induction false} TakeInv(m: Shared, h: History, free: seq<bool>, busy: set<nat>)
    requires Inv(m, h, free, busy) && h.taken < |h.posted|
    ensures Inv(m, TakeH(h), free, busy)
  {
    var h' := TakeH(h);
    assert RequestOk(m, h, busy, h.taken);
    forall q: nat | q < |h'.posted| ensures RequestOk(m, h', busy, q) {
      assert RequestOk(m, h, busy, q);
    }
    forall i: nat | i < NUM ensures OwnOk(h', free, i) {
      assert OwnOk(h, free, i);
    }
    forall j: nat | j < |h'.done| ensures DoneOk(h', j) {
      assert DoneOk(h, j);
    }
    forall q: nat | h'.taken <= q < |h'.posted| ensures AvailOk(m, h', q) {
      assert AvailOk(m, h, q);
    }
    forall j: nat | h'.seen <= j < |h'.done| ensures UsedOk(m, h', j) {
      assert UsedOk(m, h, j) && DoneOk(h, j);
    }
  }

  ghost function CompleteH(h: History, q: nat): History
    requires q < |h.posted|
  {
    Staged(h, q, Done(|h.done|)).(done := h.done + [q])
  }

  /** The device sets the status byte, fills the next used entry and advances its
      index. */
  function CompleteM(m: Shared, head: nat): Shared
    requires head < |m.info| && |m.used| == NUM
  {
    m.(info := m.info[head := m.info[head].(status := 0)], used := m.used[m.usedIdx % NUM := Used(head)],
        usedIdx := (m.usedIdx + 1) % IDX_LIMIT)
  }

  lemma {:induction false} CompleteInv(m: Shared, h: History, free: seq<bool>, busy: set<nat>, q: nat)
    requires Inv(m, h, free, busy) && q < |h.posted| && h.posted[q].stage == Taken
    ensures HeadOwned(h, q) && Inv(CompleteM(m, h.posted[q].chain[0]), CompleteH(h, q), free, busy)
  {
    LiveHead(m, h, free, busy, q);
    UsedRoom(m, h, free, busy, q);
    Wraparound(|h.done|, |h.done|);
    var m', h' := CompleteM(m, h.posted[q].chain[0]), CompleteH(h, q);
    forall w: nat | w < |h'.posted| ensures RequestOk(m', h', busy, w) {
      CompleteRequest(m, h, free, busy, q, w);
    }
    forall i: nat | i < NUM ensures OwnOk(h', free, i) {
      assert OwnOk(h, free, i);
    }
    assert RequestOk(m, h, busy, q);
    forall j: nat | j < |h'.done| ensures DoneOk(h', j) {
      assert j < |h.done| ==> DoneOk(h, j);
    }
    forall w: nat | h'.taken <= w < |h'.posted| ensures AvailOk(m', h', w) {
      assert AvailOk(m, h, w);
    }
    forall j: nat | h'.seen <= j < |h'.done| ensures UsedOk(m', h', j) {
      if j < |h.done| {
        assert UsedOk(m, h, j);
        SlotsApart(h.seen, j, |h.done|);
      }
    }
  }

  lemma {:induction false} CompleteRequest(m: Shared, h: History, free: seq<bool>, busy: set<nat>, q: nat, w: nat)
    requires Inv(m, h, free, busy) && q < |h.posted| && h.posted[q].stage == Taken && w < |h.posted| && HeadOwned(h, q)
    ensures RequestOk(CompleteM(m, h.posted[q].chain[0]), CompleteH(h, q), busy, w)
  {
    assert RequestOk(m, h, busy, w) && RequestOk(m, h, busy, q);
    if w != q && Live(h.posted[w]) {
      LiveHead(m, h, free, busy, w);
      assert h.posted[w].chain[0] != h.posted[q].chain[0];
    }
  }

  // Steps of the driver

  ghost function SeeH(h: History): History
    requires h.seen < |h.done| && h.done[h.seen] < |h.posted|
  {
    Staged(h, h.done[h.seen], Seen(h.seen)).(seen := h.seen + 1)
  }

  /** The driver looks at the next completion: its buffer is no longer with the disk. */
  lemma {:induction false} SeeInv(m: Shared, h: History, free: seq<bool>, busy: set<nat>)
    requires Inv(m, h, free, busy) && h.seen < |h.done|
    ensures h.done[h.seen] < |h.posted| && HeadOwned(h, h.done[h.seen])
    ensures var r := h.posted[h.done[h.seen]];
      && r.stage == Done(h.seen)
      && r.b in busy
      && m.used[h.seen % NUM] == Used(r.chain[0])
      && m.info[r.chain[0]] == Info(r.b, 0)
    ensures Inv(m, SeeH(h), free, busy - {h.posted[h.done[h.seen]].b})
  {
    var q := h.done[h.seen];
    assert DoneOk(h, h.seen) && UsedOk(m, h, h.seen) && RequestOk(m, h, busy, q);
    LiveHead(m, h, free, busy, q);
    var h', busy' := SeeH(h), busy - {h.posted[q].b};
    forall w: nat | w < |h'.posted| ensures RequestOk(m, h', busy', w) {
      assert RequestOk(m, h, busy, w);
      assert w < q && Live(h.posted[w]) ==> h.posted[w].b != h.posted[q].b;
      assert q < w && Live(h.posted[w]) ==> h.posted[q].b != h.posted[w].b;
    }
    forall i: nat | i < NUM ensures OwnOk(h', free, i) {
      assert OwnOk(h, free, i);
    }
    forall j: nat | j < |h'.done| ensures DoneOk(h', j) {
      assert DoneOk(h, j);
    }
    forall w: nat | h'.taken <= w < |h'.posted| ensures AvailOk(m, h', w) {
      assert AvailOk(m, h, w) && RequestOk(m, h, busy, w);
    }
    forall j: nat | h'.seen <= j < |h'.done| ensures UsedOk(m, h', j) {
      assert UsedOk(m, h, j) && DoneOk(h, j);
    }
  }

  ghost function OwnH(h: History, i: nat, o: Own): History
    requires i < |h.own|
  {
    h.(own := h.own[i := o])
  }

  /** A descriptor that is free or held changes hands; what it says is of no concern
      to anybody. */
  lemma {:induction false} HandInv(m: Shared, h: History, free: seq<bool>, busy: set<nat>, i: nat, o: Own, d: Desc)
    requires Inv(m, h, free, busy) && i < NUM && !h.own[i].Chain? && !o.Chain?
    ensures Inv(m.(desc := m.desc[i := d]), OwnH(h, i, o), free[i := o == Free], busy)
  {
    var m', h', free' := m.(desc := m.desc[i := d]), OwnH(h, i, o), free[i := o == Free];
    forall q: nat | q < |h'.posted| ensures RequestOk(m', h', busy, q) {
      assert RequestOk(m, h, busy, q);
      if Live(h.posted[q]) {
        assert forall p: nat :: p < 3 ==> h.own[h.posted[q].chain[p]] == Chain(q, p);
        assert h.own[h.posted[q].chain[0]].Chain? && h.own[h.posted[q].chain[1]].Chain?;
        assert h.own[h.posted[q].chain[2]].Chain?;
      }
    }
    forall k: nat | k < NUM ensures OwnOk(h', free', k) {
      assert OwnOk(h, free, k);
    }
    forall j: nat | j < |h'.done| ensures DoneOk(h', j) {
      assert DoneOk(h, j);
    }
    forall q: nat | h'.taken <= q < |h'.posted| ensures AvailOk(m', h', q) {
      assert AvailOk(m, h, q);
    }
    forall j: nat | h'.seen <= j < |h'.done| ensures UsedOk(m', h', j) {
      assert UsedOk(m, h, j);
    }
  }

  ghost predicate HeldThree(h: History, idx: seq<nat>) {
    && |idx| == 3 && |h.own| == NUM && idx[0] != idx[1] && idx[0] != idx[2] && idx[1] != idx[2]
    && (forall p :: 0 <= p < 3 ==> idx[p] < NUM && h.own[idx[p]] == Held)
  }

  ghost function PostH(h: History, idx: seq<nat>, b: nat, cmd: Command): History
    requires HeldThree(h, idx)
  {
    var q := |h.posted|;
    h.(posted := h.posted + [Request(idx, b, cmd, Waiting)],
       own := h.own[idx[0] := Chain(q, 0)][idx[1] := Chain(q, 1)][idx[2] := Chain(q, 2)])
  }

  ghost predicate BufferFree(h: History, b: nat) {
    forall q: nat :: q < |h.posted| && Live(h.posted[q]) ==> h.posted[q].b != b
  }

  /** Only what belongs to the descriptors in `idx` differs. */
  ghost predicate Scratch(m: Shared, m': Shared, idx: seq<nat>) {
    && |m'.desc| == |m.desc| == |m'.ops| == |m.ops| == |m'.info| == |m.info| == NUM
    && m'.avail == m.avail && m'.availIdx == m.availIdx && m'.used == m.used && m'.usedIdx == m.usedIdx
    && forall i ::
      0 <= i < NUM && i !in idx ==> m'.desc[i] == m.desc[i] && m'.ops[i] == m.ops[i] && m'.info[i] == m.info[i]
  }

  /** Formatting held descriptors disturbs no request. */
  lemma {:induction false} ScratchInv(m: Shared, m': Shared, h: History, free: seq<bool>, busy: set<nat>, idx: seq<nat>)
    requires Inv(m, h, free, busy) && HeldThree(h, idx) && Scratch(m, m', idx)
    ensures Inv(m', h, free, busy)
  {
    forall q: nat | q < |h.posted| ensures RequestOk(m', h, busy, q) {
      assert RequestOk(m, h, busy, q);
      if Live(h.posted[q]) {
        var c := h.posted[q].chain;
        assert h.own[c[0]] == Chain(q, 0) && h.own[c[1]] == Chain(q, 1) && h.own[c[2]] == Chain(q, 2);
      }
    }
    forall q: nat | h.taken <= q < |h.posted| ensures AvailOk(m', h, q) {
      assert AvailOk(m, h, q);
    }
    forall j: nat | h.seen <= j < |h.done| ensures UsedOk(m', h, j) {
      assert UsedOk(m, h, j);
    }
  }

  lemma {:induction false} BusyInv(m: Shared, h: History, free: seq<bool>, busy: set<nat>, b: nat)
    requires Inv(m, h, free, busy) && BufferFree(h, b)
    ensures Inv(m, h, free, busy + {b})
  {
    var busy' := busy + {b};
    forall q: nat | q < |h.posted| ensures RequestOk(m, h, busy', q) {
      assert RequestOk(m, h, busy, q);
    }
  }

  /** So does filling the next avail entry, before the index says that it is there. */
  lemma {:induction false} RingInv(m: Shared, h: History, free: seq<bool>, busy: set<nat>, head: nat)
    requires Inv(m, h, free, busy) && head < NUM && h.own[head] == Held
    ensures m.availIdx % NUM == |h.posted| % NUM
    ensures Inv(m.(avail := m.avail[m.availIdx % NUM := head]), h, free, busy)
  {
    var m' := m.(avail := m.avail[m.availIdx % NUM := head]);
    AvailRoom(m, h, free, busy, head);
    Wraparound(|h.posted|, |h.posted|);
    forall q: nat | q < |h.posted| ensures RequestOk(m', h, busy, q) {
      assert RequestOk(m, h, busy, q);
    }
    forall q: nat | h.taken <= q < |h.posted| ensures AvailOk(m', h, q) {
      assert AvailOk(m, h, q);
      SlotsApart(h.taken, q, |h.posted|);
    }
    forall j: nat | h.seen <= j < |h.done| ensures UsedOk(m', h, j) {
      assert UsedOk(m, h, j);
    }
  }

  /** A chain ready to be announced. */
  ghost predicate Ready(m: Shared, h: History, idx: seq<nat>, b: nat, cmd: Command) {
    && HeldThree(h, idx) && |m.info| == NUM && ChainOk(m, Request(idx, b, cmd, Waiting))
    && m.info[idx[0]] == Info(b, 0xff)
  }

  lemma {:induction false} AnnounceRequest(m: Shared, m': Shared, h: History, free: seq<bool>, busy: set<nat>,
      idx: seq<nat>, b: nat, cmd: Command, q: nat)
    requires Inv(m, h, free, busy) && Ready(m, h, idx, b, cmd) && BufferFree(h, b) && q <= |h.posted|
    requires m' == m.(availIdx := (m.availIdx + 1) % IDX_LIMIT)
    ensures RequestOk(m', PostH(h, idx, b, cmd), busy + {b}, q)
  {
    if q < |h.posted| {
      assert RequestOk(m, h, busy, q);
      if Live(h.posted[q]) {
        var c := h.posted[q].chain;
        assert h.own[c[0]] == Chain(q, 0) && h.own[c[1]] == Chain(q, 1) && h.own[c[2]] == Chain(q, 2);
      }
    }
  }

  /** Advancing the avail index posts the request. */
  lemma {:induction false} AnnounceInv(m: Shared, h: History, free: seq<bool>, busy: set<nat>, idx: seq<nat>, b: nat,
      cmd: Command)
    requires Inv(m, h, free, busy) && Ready(m, h, idx, b, cmd) && BufferFree(h, b)
    requires m.avail[|h.posted| % NUM] == idx[0]
    ensures Inv(m.(availIdx := (m.availIdx + 1) % IDX_LIMIT), PostH(h, idx, b, cmd), free, busy + {b})
  {
    var m', h' := m.(availIdx := (m.availIdx + 1) % IDX_LIMIT), PostH(h, idx, b, cmd);
    Wraparound(|h.posted|, |h.posted|);
    var busy' := busy + {b};
    forall q: nat | q < |h'.posted| ensures RequestOk(m', h', busy', q) {
      AnnounceRequest(m, m', h, free, busy, idx, b, cmd, q);
    }
    forall k: nat | k < NUM ensures OwnOk(h', free, k) {
      assert OwnOk(h, free, k);
    }
    forall j: nat | j < |h'.done| ensures DoneOk(h', j) {
      assert DoneOk(h, j);
    }
    forall q: nat | h'.taken <= q < |h'.posted| ensures AvailOk(m', h', q) {
      assert q < |h.posted| ==> AvailOk(m, h, q);
    }
    forall j: nat | h'.seen <= j < |h'.done| ensures UsedOk(m', h', j) {
      assert UsedOk(m, h, j);
    }
  }

  ghost function FinishH(h: History, q: nat): History
    requires q < |h.posted| && h.posted[q].stage.Seen? && |h.posted[q].chain| == 3
    requires forall p ::
      0 <= p < 3 ==> h.posted[q].chain[p] < |h.own|
  {
    var c := h.posted[q].chain;
    Staged(h, q, Finished(h.posted[q].stage.j)).(own := h.own[c[0] := Held][c[1] := Held][c[2] := Held])
  }

  /** A request that has been seen is over: its descriptors are in hand again. */
  lemma {:induction false} FinishInv(m: Shared, h: History, free: seq<bool>, busy: set<nat>, q: nat)
    requires Inv(m, h, free, busy) && q < |h.posted| && h.posted[q].stage.Seen?
    ensures ChainOk(m, h.posted[q]) && (forall p: nat :: p < 3 ==> h.own[h.posted[q].chain[p]] == Chain(q, p))
    ensures Inv(m.(info := m.info[h.posted[q].chain[0] := m.info[h.posted[q].chain[0]].(b := 0)]), FinishH(h, q),
        free, busy)
  {
    assert RequestOk(m, h, busy, q);
    var c := h.posted[q].chain;
    assert h.own[c[0]] == Chain(q, 0) && h.own[c[1]] == Chain(q, 1) && h.own[c[2]] == Chain(q, 2);
    var m', h' := m.(info := m.info[c[0] := m.info[c[0]].(b := 0)]), FinishH(h, q);
    forall w: nat | w < |h'.posted| ensures RequestOk(m', h', busy, w) {
      assert RequestOk(m, h, busy, w);
      if w != q && Live(h.posted[w]) {
        var d := h.posted[w].chain;
        assert h.own[d[0]] == Chain(w, 0) && h.own[d[1]] == Chain(w, 1) && h.own[d[2]] == Chain(w, 2);
      }
    }
    forall k: nat | k < NUM ensures OwnOk(h', free, k) {
      assert OwnOk(h, free, k);
    }
    forall j: nat | j < |h'.done| ensures DoneOk(h', j) {
      assert DoneOk(h, j);
    }
    forall w: nat | h'.taken <= w < |h'.posted| ensures AvailOk(m', h', w) {
      assert AvailOk(m, h, w);
    }
    forall j: nat | h'.seen <= j < |h'.done| ensures UsedOk(m', h', j) {
      assert UsedOk(m, h, j);
    }
  }
}
