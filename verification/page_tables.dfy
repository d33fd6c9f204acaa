/** Physical pages and Sv39 page tables (kernel/kalloc.c, kernel/vm.c, kernel/riscv.h;
    section 4.4 of the RISC-V Privileged Architecture specification).  Addresses are
    page numbers: `ppn` for physical pages, `vpn` for virtual ones. */
module PageTables {
  import opened Blocks

  const PGSIZE: nat := 4096
  const ENTRIES: nat := 512
  const RAM_END: nat := 0x88000               // PHYSTOP / PGSIZE
  const RAM_START: nat := 0x80000             // KERNBASE / PGSIZE
  const VPN_LIMIT: nat := 0x400_0000          // MAXVA / PGSIZE
  const TRAMPOLINE: nat := VPN_LIMIT - 1
  const TRAPFRAME: nat := VPN_LIMIT - 2

  const PTE_V: nat := 1
  const PTE_R: nat := 2
  const PTE_W: nat := 4
  const PTE_X: nat := 8
  const PTE_U: nat := 16

  /** What a physical page holds: the link of a free page, page-table entries, or
      bytes. */
  datatype Page = Run(next: nat) | Table(pte: seq<nat>) | Data(bytes: seq<byte>)

  type Memory = seq<Page>

  // Entries

  /** PA2PTE(pa) | flags */
  function Pte(ppn: nat, flags: nat): nat {
    ppn * 1024 + flags
  }

  /** PTE2PA */
  function PpnOf(pte: nat): nat {
    pte / 1024
  }

  /** PTE_FLAGS */
  function FlagsOf(pte: nat): nat {
    pte % 1024
  }

  predicate IsValid(pte: nat) {
    pte % 2 == 1
  }

  lemma {:induction false} PteParts(ppn: nat, flags: nat)
    requires flags < 1024
    ensures PpnOf(Pte(ppn, flags)) == ppn && FlagsOf(Pte(ppn, flags)) == flags
    ensures IsValid(Pte(ppn, flags)) <==> flags % 2 == 1
  {
  }

  // Indices

  /** The entries of a level-`l` table reached for `vpn` cover the page numbers that
      share this prefix. */
  function Prefix(l: nat, vpn: nat): nat {
    if l == 0 then vpn / 512 else Prefix(l - 1, vpn) / 512
  }

  /** PX(level, va) */
  function Px(l: nat, vpn: nat): (i: nat)
    ensures i < ENTRIES
  {
    if l == 0 then vpn % 512 else Prefix(l - 1, vpn) % 512
  }

  // Ownership of pages

  /** What a physical page is used for: the i-th free page, a page-table node, a page
      of user memory, or something the kernel holds by other means. */
  datatype Use = Free(i: nat) | Node(root: nat, level: nat, prefix: nat) | User(root: nat, vpn: nat) | Other

  datatype Leaf = Leaf(ppn: nat, flags: nat)

  /** An address space: the page of each table node, by level and prefix, and the
      mapping it implements. */
  datatype Space = Space(node: map<(nat, nat), nat>, leaf: map<nat, Leaf>)

  datatype Abstract = Abstract(free: seq<nat>, uses: map<nat, Use>, spaces: map<nat, Space>)

  ghost function LeafEntry(sp: Space, vpn: nat): nat {
    if vpn in sp.leaf then Pte(sp.leaf[vpn].ppn, sp.leaf[vpn].flags) else 0
  }

  ghost function BranchEntry(sp: Space, l: nat, k: nat): nat {
    if (l, k) in sp.node then Pte(sp.node[(l, k)], PTE_V) else 0
  }

  /** Entry `j` of the node at level `l` and prefix `k`. */
  ghost function Entry(sp: Space, l: nat, k: nat, j: nat): nat {
    if l == 0 then LeafEntry(sp, k * 512 + j) else BranchEntry(sp, l - 1, k * 512 + j)
  }

  ghost predicate EntryOk(mem: Memory, sp: Space, l: nat, k: nat, p: nat, j: nat)
    requires p < |mem| && mem[p].Table? && j < |mem[p].pte|
  {
    mem[p].pte[j] == Entry(sp, l, k, j)
  }

  ghost predicate TableOk(mem: Memory, sp: Space, l: nat, k: nat, p: nat) {
    && p < |mem| && mem[p].Table? && |mem[p].pte| == ENTRIES
    && forall j: nat :: j < ENTRIES ==> EntryOk(mem, sp, l, k, p, j)
  }

  ghost predicate NodeOk(mem: Memory, uses: map<nat, Use>, r: nat, sp: Space, l: nat, k: nat)
    requires (l, k) in sp.node
  {
    var p := sp.node[(l, k)];
    && l <= 2 && (l == 2 ==> k == 0) && (l < 2 ==> (l + 1, k / 512) in sp.node)
    && p in uses && uses[p] == Node(r, l, k) && TableOk(mem, sp, l, k, p)
  }

  ghost predicate LeafOk(uses: map<nat, Use>, r: nat, sp: Space, v: nat)
    requires v in sp.leaf
  {
    var e := sp.leaf[v];
    && (0, v / 512) in sp.node && v < VPN_LIMIT
    && e.flags < 1024 && e.flags % 2 == 1 && e.flags != PTE_V
    && (v < TRAPFRAME ==> e.ppn in uses && uses[e.ppn] == User(r, v))
  }

  /** The tables in memory spell out exactly the mapping of the space. */
  ghost predicate SpaceOk(mem: Memory, uses: map<nat, Use>, r: nat, sp: Space) {
    && (2, 0) in sp.node && sp.node[(2, 0)] == r
    && (forall l, k {:trigger NodeOk(mem, uses, r, sp, l, k)} :: (l, k) in sp.node ==> NodeOk(mem, uses, r, sp, l, k))
    && (forall v {:trigger LeafOk(uses, r, sp, v)} :: v in sp.leaf ==> LeafOk(uses, r, sp, v))
  }

  ghost predicate UseOk(mem: Memory, a: Abstract, p: nat)
    requires p in a.uses && p < |mem|
  {
    match a.uses[p]
    case Free(i) => i < |a.free| && a.free[i] == p
    case Node(r, l, k) => r in a.spaces && (l, k) in a.spaces[r].node && a.spaces[r].node[(l, k)] == p
    case User(r, v) => r in a.spaces && v in a.spaces[r].leaf && v < TRAPFRAME && a.spaces[r].leaf[v].ppn == p
      && mem[p].Data? && |mem[p].bytes| == PGSIZE
    case Other => true
  }

  ghost predicate FreeAt(mem: Memory, a: Abstract, i: nat)
    requires i < |a.free|
  {
    var p := a.free[i];
    p in a.uses && p < |mem| && a.uses[p] == Free(i) && mem[p] == Run(if i == 0 then 0 else a.free[i - 1])
  }

  /** The free list runs from the last element of `free` to the first. */
  ghost predicate FreeOk(mem: Memory, freelist: nat, a: Abstract) {
    && freelist == (if a.free == [] then 0 else a.free[|a.free| - 1])
    && forall i: nat :: i < |a.free| ==> FreeAt(mem, a, i)
  }

  /** Every page of RAM has exactly one use. */
  ghost predicate Partitioned(mem: Memory, lo: nat, a: Abstract) {
    && |mem| == RAM_END && RAM_START <= lo <= RAM_END
    && (forall p: nat :: p in a.uses <==> lo <= p < RAM_END)
    && (forall p: nat {:trigger UseOk(mem, a, p)} :: p in a.uses ==> p < |mem| && UseOk(mem, a, p))
  }

  ghost predicate Inv(mem: Memory, freelist: nat, lo: nat, a: Abstract) {
    && Partitioned(mem, lo, a) && FreeOk(mem, freelist, a)
    && forall r {:trigger SpaceOk(mem, a.uses, r, a.spaces[r])} ::
      r in a.spaces ==> SpaceOk(mem, a.uses, r, a.spaces[r])
  }

  // What survives a change of one page

  lemma {:induction false} TableFrame(mem: Memory, mem': Memory, sp: Space, l: nat, k: nat, p: nat)
    requires TableOk(mem, sp, l, k, p) && |mem'| == |mem| && mem'[p] == mem[p]
    ensures TableOk(mem', sp, l, k, p)
  {
    forall j: nat | j < ENTRIES ensures EntryOk(mem', sp, l, k, p, j) {
      assert EntryOk(mem, sp, l, k, p, j);
    }
  }

  ghost predicate StructureOf(u: Use, r: nat) {
    (u.Node? && u.root == r) || (u.User? && u.root == r)
  }

  /** A space is untouched if its nodes keep their contents and its pages their use. */
  lemma {:induction false} SpaceFrame(mem: Memory, mem': Memory, uses: map<nat, Use>, uses': map<nat, Use>, r: nat,
      sp: Space)
    requires SpaceOk(mem, uses, r, sp) && |mem'| == |mem|
    requires forall p :: p in uses && StructureOf(uses[p], r) ==> p in uses' && uses'[p] == uses[p]
    requires forall p :: p in uses && p < |mem| && uses[p].Node? && uses[p].root == r ==> mem'[p] == mem[p]
    ensures SpaceOk(mem', uses', r, sp)
  {
    forall l, k | (l, k) in sp.node ensures NodeOk(mem', uses', r, sp, l, k) {
      assert NodeOk(mem, uses, r, sp, l, k);
      TableFrame(mem, mem', sp, l, k, sp.node[(l, k)]);
    }
    forall v | v in sp.leaf ensures LeafOk(uses', r, sp, v) {
      assert LeafOk(uses, r, sp, v);
    }
  }

  // kalloc and kfree

  function Popped(a: Abstract): Abstract
    requires a.free != []
  {
    var n := |a.free| - 1;
    a.(free := a.free[..n], uses := a.uses[a.free[n] := Other])
  }

  lemma {:induction false} PopInv(mem: Memory, freelist: nat, lo: nat, a: Abstract, junk: Page)
    requires Inv(mem, freelist, lo, a) && freelist != 0
    ensures a.free != [] && freelist < |mem| && mem[freelist].Run?
    ensures freelist in a.uses && a.uses[freelist] == Free(|a.free| - 1)
    ensures Inv(mem[freelist := junk], mem[freelist].next, lo, Popped(a))
  {
    var p, n := freelist, |a.free| - 1;
    assert FreeAt(mem, a, n);
    var mem', a' := mem[p := junk], Popped(a);
    forall i: nat | i < |a'.free| ensures FreeAt(mem', a', i) {
      assert FreeAt(mem, a, i);
    }
    assert n > 0 ==> FreeAt(mem, a, n - 1);
    forall q: nat | q in a'.uses ensures q < |mem'| && UseOk(mem', a', q) {
      assert UseOk(mem, a, q);
    }
    forall r | r in a'.spaces ensures SpaceOk(mem', a'.uses, r, a'.spaces[r]) {
      assert SpaceOk(mem, a.uses, r, a.spaces[r]);
      SpaceFrame(mem, mem', a.uses, a'.uses, r, a.spaces[r]);
    }
  }

  lemma {:induction false} NoneFree(mem: Memory, freelist: nat, lo: nat, a: Abstract)
    requires Inv(mem, freelist, lo, a)
    ensures freelist == 0 <==> a.free == []
  {
    if a.free != [] {
      assert FreeAt(mem, a, |a.free| - 1);
    }
  }

  function Pushed(a: Abstract, p: nat): Abstract {
    a.(free := a.free + [p], uses := a.uses[p := Free(|a.free|)])
  }

  lemma {:induction false} PushInv(mem: Memory, freelist: nat, lo: nat, a: Abstract, p: nat)
    requires Inv(mem, freelist, lo, a) && p in a.uses && a.uses[p] == Other
    ensures p < |mem| && Inv(mem[p := Run(freelist)], p, lo, Pushed(a, p))
  {
    var mem', a' := mem[p := Run(freelist)], Pushed(a, p);
    forall i: nat | i < |a'.free| ensures FreeAt(mem', a', i) {
      if i < |a.free| {
        assert FreeAt(mem, a, i);
      }
    }
    forall q: nat | q in a'.uses ensures q < |mem'| && UseOk(mem', a', q) {
      assert UseOk(mem, a, q);
    }
    forall r | r in a'.spaces ensures SpaceOk(mem', a'.uses, r, a'.spaces[r]) {
      assert SpaceOk(mem, a.uses, r, a.spaces[r]);
      SpaceFrame(mem, mem', a.uses, a'.uses, r, a.spaces[r]);
    }
  }

  /** Writing a page that is neither free nor a table. */
  lemma {:induction false} WriteInv(mem: Memory, freelist: nat, lo: nat, a: Abstract, p: nat, page: Page)
    requires Inv(mem, freelist, lo, a) && p in a.uses
    requires a.uses[p] == Other || (a.uses[p].User? && page.Data? && |page.bytes| == PGSIZE)
    ensures p < |mem| && Inv(mem[p := page], freelist, lo, a)
  {
    var mem' := mem[p := page];
    forall i: nat | i < |a.free| ensures FreeAt(mem', a, i) {
      assert FreeAt(mem, a, i);
    }
    forall q: nat | q in a.uses ensures q < |mem'| && UseOk(mem', a, q) {
      assert UseOk(mem, a, q);
    }
    forall r | r in a.spaces ensures SpaceOk(mem', a.uses, r, a.spaces[r]) {
      SpaceFrame(mem, mem', a.uses, a.uses, r, a.spaces[r]);
    }
  }

  // A new table node

  function ZeroTable(): (t: Page)
    ensures t.Table? && |t.pte| == ENTRIES && forall j: nat :: j < ENTRIES ==> t.pte[j] == 0
  {
    Table(seq<nat>(ENTRIES, _ => 0))
  }

  function PteSet(mem: Memory, t: nat, j: nat, e: nat): (m: Memory)
    requires t < |mem| && mem[t].Table? && j < |mem[t].pte|
    ensures |m| == |mem|
  {
    mem[t := Table(mem[t].pte[j := e])]
  }

  ghost function WithNode(a: Abstract, r: nat, l: nat, k: nat, p: nat): Abstract
    requires r in a.spaces
  {
    a.(uses := a.uses[p := Node(r, l, k)], spaces := a.spaces[r := a.spaces[r].(node := a.spaces[r].node[(l, k) := p])])
  }

  /** What adding node (l, k) needs: its parent is there, it is not, and its page is
      a zeroed one. */
  ghost predicate Addable(mem: Memory, a: Abstract, r: nat, l: nat, k: nat, p: nat) {
    && r in a.spaces && l < 2 && (l, k) !in a.spaces[r].node && (l + 1, k / 512) in a.spaces[r].node
    && p in a.uses && a.uses[p] == Other && p < |mem| && mem[p] == ZeroTable()
  }

  lemma {:induction false} NewNodeEntries(mem: Memory, uses: map<nat, Use>, r: nat, sp: Space, l: nat, k: nat, j: nat)
    requires SpaceOk(mem, uses, r, sp) && l < 2 && (l, k) !in sp.node && j < ENTRIES
    ensures Entry(sp, l, k, j) == 0
  {
    var c := k * 512 + j;
    assert c / 512 == k;
    if l == 0 {
      assert c in sp.leaf ==> LeafOk(uses, r, sp, c);
    } else {
      assert (l - 1, c) in sp.node ==> NodeOk(mem, uses, r, sp, l - 1, c);
    }
  }

  /** Adding a node changes the entry for it in its parent and no other entry. */
  lemma {:induction false} AddNodeTable(mem: Memory, uses: map<nat, Use>, r: nat, sp: Space, l: nat, k: nat, p: nat,
      l2: nat, k2: nat)
    requires SpaceOk(mem, uses, r, sp) && l < 2 && (l, k) !in sp.node && (l + 1, k / 512) in sp.node
    requires p < |mem| && mem[p] == ZeroTable() && p in uses && uses[p] == Other
    requires (l2, k2) in sp.node || (l2, k2) == (l, k)
    ensures var q := sp.node[(l + 1, k / 512)]; q < |mem| && mem[q].Table? && |mem[q].pte| == ENTRIES
    ensures var sp' := sp.(node := sp.node[(l, k) := p]);
      TableOk(PteSet(mem, sp.node[(l + 1, k / 512)], k % 512, Pte(p, PTE_V)), sp', l2, k2, sp'.node[(l2, k2)])
  {
    var sp', q := sp.(node := sp.node[(l, k) := p]), sp.node[(l + 1, k / 512)];
    assert NodeOk(mem, uses, r, sp, l + 1, k / 512);
    var mem', p2 := PteSet(mem, q, k % 512, Pte(p, PTE_V)), sp'.node[(l2, k2)];
    if (l2, k2) == (l, k) {
      forall j: nat | j < ENTRIES ensures EntryOk(mem', sp', l, k, p, j) {
        NewNodeEntries(mem, uses, r, sp, l, k, j);
      }
    } else {
      assert NodeOk(mem, uses, r, sp, l2, k2);
      forall j: nat | j < ENTRIES ensures EntryOk(mem', sp', l2, k2, p2, j) {
        assert EntryOk(mem, sp, l2, k2, p2, j);
        assert (k2 * 512 + j) / 512 == k2 && (k2 * 512 + j) % 512 == j;
      }
    }
  }

  lemma {:induction false} AddNodeSpace(mem: Memory, freelist: nat, lo: nat, a: Abstract, r: nat, l: nat, k: nat,
      p: nat)
    requires Inv(mem, freelist, lo, a) && Addable(mem, a, r, l, k, p)
    ensures var q := a.spaces[r].node[(l + 1, k / 512)]; q < |mem| && mem[q].Table? && |mem[q].pte| == ENTRIES
    ensures var a' := WithNode(a, r, l, k, p);
      SpaceOk(PteSet(mem, a.spaces[r].node[(l + 1, k / 512)], k % 512, Pte(p, PTE_V)), a'.uses, r, a'.spaces[r])
  {
    var sp := a.spaces[r];
    var q := sp.node[(l + 1, k / 512)];
    assert SpaceOk(mem, a.uses, r, sp) && NodeOk(mem, a.uses, r, sp, l + 1, k / 512);
    var mem', a' := PteSet(mem, q, k % 512, Pte(p, PTE_V)), WithNode(a, r, l, k, p);
    var sp' := a'.spaces[r];
    forall l2, k2 | (l2, k2) in sp'.node ensures NodeOk(mem', a'.uses, r, sp', l2, k2) {
      AddNodeTable(mem, a.uses, r, sp, l, k, p, l2, k2);
      if (l2, k2) != (l, k) {
        assert NodeOk(mem, a.uses, r, sp, l2, k2);
      }
    }
    forall v | v in sp'.leaf ensures LeafOk(a'.uses, r, sp', v) {
      assert LeafOk(a.uses, r, sp, v);
    }
  }

  lemma {:induction false} AddNodeInv(mem: Memory, freelist: nat, lo: nat, a: Abstract, r: nat, l: nat, k: nat, p: nat)
    requires Inv(mem, freelist, lo, a) && Addable(mem, a, r, l, k, p)
    ensures var q := a.spaces[r].node[(l + 1, k / 512)]; q < |mem| && mem[q].Table? && |mem[q].pte| == ENTRIES
    ensures Inv(PteSet(mem, a.spaces[r].node[(l + 1, k / 512)], k % 512, Pte(p, PTE_V)), freelist, lo,
        WithNode(a, r, l, k, p))
  {
    var sp := a.spaces[r];
    var q := sp.node[(l + 1, k / 512)];
    AddNodeSpace(mem, freelist, lo, a, r, l, k, p);
    assert SpaceOk(mem, a.uses, r, sp) && NodeOk(mem, a.uses, r, sp, l + 1, k / 512);
    var mem', a' := PteSet(mem, q, k % 512, Pte(p, PTE_V)), WithNode(a, r, l, k, p);
    forall i: nat | i < |a'.free| ensures FreeAt(mem', a', i) {
      assert FreeAt(mem, a, i);
    }
    forall x: nat | x in a'.uses ensures x < |mem'| && UseOk(mem', a', x) {
      assert UseOk(mem, a, x);
    }
    forall r2 | r2 in a'.spaces && r2 != r ensures SpaceOk(mem', a'.uses, r2, a'.spaces[r2]) {
      SpaceFrame(mem, mem', a.uses, a'.uses, r2, a.spaces[r2]);
    }
  }

  // A change of one leaf entry

  ghost predicate LeafDiffers(sp: Space, sp': Space, v: nat) {
    && sp'.node == sp.node
    && forall w {:trigger w in sp'.leaf} ::
      w != v ==> (w in sp'.leaf <==> w in sp.leaf) && (w in sp.leaf ==> sp'.leaf[w] == sp.leaf[w])
  }

  lemma {:induction false} LeafTable(mem: Memory, uses: map<nat, Use>, r: nat, sp: Space, sp': Space, v: nat, l: nat,
      k: nat)
    requires SpaceOk(mem, uses, r, sp) && LeafDiffers(sp, sp', v) && (0, v / 512) in sp.node && (l, k) in sp.node
    ensures var t := sp.node[(0, v / 512)]; t < |mem| && mem[t].Table? && |mem[t].pte| == ENTRIES
    ensures TableOk(PteSet(mem, sp.node[(0, v / 512)], v % 512, LeafEntry(sp', v)), sp', l, k, sp.node[(l, k)])
  {
    var t, p := sp.node[(0, v / 512)], sp.node[(l, k)];
    assert NodeOk(mem, uses, r, sp, 0, v / 512) && NodeOk(mem, uses, r, sp, l, k);
    var mem' := PteSet(mem, t, v % 512, LeafEntry(sp', v));
    forall j: nat | j < ENTRIES ensures EntryOk(mem', sp', l, k, p, j) {
      assert EntryOk(mem, sp, l, k, p, j);
      assert (k * 512 + j) / 512 == k && (k * 512 + j) % 512 == j;
      var w := k * 512 + j;
      assert w in sp'.leaf <==> (w in sp.leaf && w != v) || (w == v && v in sp'.leaf);
    }
  }

  /** Leaf pages of spaces other than (r, v) keep their use; so does every node. */
  ghost predicate UseDiffers(uses: map<nat, Use>, uses': map<nat, Use>, r: nat, v: nat) {
    && uses'.Keys == uses.Keys
    && forall p :: p in uses ==> uses'[p] == uses[p] || (LeafUse(uses[p], r, v) && LeafUse(uses'[p], r, v))
  }

  ghost predicate LeafUse(u: Use, r: nat, v: nat) {
    u == Other || u == User(r, v)
  }

  /** `a'` differs from `a` only in leaf `v` of space `r` and the use of its page. */
  ghost predicate LeafChange(mem: Memory, a: Abstract, a': Abstract, r: nat, v: nat) {
    && r in a.spaces && (0, v / 512) in a.spaces[r].node
    && a'.free == a.free && a'.spaces.Keys == a.spaces.Keys
    && (forall r2 :: r2 in a.spaces && r2 != r ==> a'.spaces[r2] == a.spaces[r2])
    && LeafDiffers(a.spaces[r], a'.spaces[r], v) && UseDiffers(a.uses, a'.uses, r, v)
    && (v in a'.spaces[r].leaf ==> LeafOk(a'.uses, r, a'.spaces[r], v))
    && (forall p: nat :: p in a'.uses && p < |mem| && LeafUse(a.uses[p], r, v) ==> UseOk(mem, a', p))
  }

  ghost predicate TablePage(mem: Memory, uses: map<nat, Use>, r: nat, t: nat) {
    t in uses && uses[t].Node? && uses[t].root == r && t < |mem| && mem[t].Table? && |mem[t].pte| == ENTRIES
  }

  lemma {:induction false} LeafPartitioned(mem: Memory, mem': Memory, lo: nat, a: Abstract, a': Abstract, r: nat,
      v: nat, t: nat)
    requires Partitioned(mem, lo, a) && LeafChange(mem, a, a', r, v) && TablePage(mem, a.uses, r, t)
    requires |mem'| == |mem| && mem' == mem[t := mem'[t]]
    ensures Partitioned(mem', lo, a')
  {
    forall x: nat | x in a'.uses ensures x < |mem'| && UseOk(mem', a', x) {
      assert UseOk(mem, a, x);
      UsesLeaf(mem, mem', a, a', r, v, t, x);
    }
  }

  lemma {:induction false} LeafOthers(mem: Memory, mem': Memory, a: Abstract, a': Abstract, r: nat, v: nat, t: nat,
      r2: nat)
    requires LeafChange(mem, a, a', r, v) && TablePage(mem, a.uses, r, t)
    requires |mem'| == |mem| && mem' == mem[t := mem'[t]] && r2 in a.spaces && r2 != r
    requires SpaceOk(mem, a.uses, r2, a.spaces[r2])
    ensures SpaceOk(mem', a'.uses, r2, a'.spaces[r2])
  {
    SpaceFrame(mem, mem', a.uses, a'.uses, r2, a.spaces[r2]);
  }

  lemma {:induction false} LeafFree(mem: Memory, mem': Memory, freelist: nat, a: Abstract, a': Abstract, r: nat,
      v: nat, t: nat)
    requires FreeOk(mem, freelist, a) && LeafChange(mem, a, a', r, v) && TablePage(mem, a.uses, r, t)
    requires |mem'| == |mem| && mem' == mem[t := mem'[t]]
    ensures FreeOk(mem', freelist, a')
  {
    forall i: nat | i < |a'.free| ensures FreeAt(mem', a', i) {
      assert FreeAt(mem, a, i);
    }
  }

  lemma {:induction false} LeafInv(mem: Memory, freelist: nat, lo: nat, a: Abstract, a': Abstract, r: nat, v: nat)
    requires Inv(mem, freelist, lo, a) && LeafChange(mem, a, a', r, v)
    ensures TablePage(mem, a.uses, r, a.spaces[r].node[(0, v / 512)])
    ensures Inv(PteSet(mem, a.spaces[r].node[(0, v / 512)], v % 512, LeafEntry(a'.spaces[r], v)), freelist, lo, a')
  {
    var sp, sp' := a.spaces[r], a'.spaces[r];
    var t := sp.node[(0, v / 512)];
    assert SpaceOk(mem, a.uses, r, sp) && NodeOk(mem, a.uses, r, sp, 0, v / 512);
    var mem' := PteSet(mem, t, v % 512, LeafEntry(sp', v));
    LeafSpace(mem, a.uses, a'.uses, r, sp, sp', v);
    LeafPartitioned(mem, mem', lo, a, a', r, v, t);
    LeafFree(mem, mem', freelist, a, a', r, v, t);
    forall r2 | r2 in a'.spaces ensures SpaceOk(mem', a'.uses, r2, a'.spaces[r2]) {
      if r2 != r {
        LeafOthers(mem, mem', a, a', r, v, t, r2);
      }
    }
  }

  lemma {:induction false} UsesLeaf(mem: Memory, mem': Memory, a: Abstract, a': Abstract, r: nat, v: nat, t: nat,
      x: nat)
    requires r in a.spaces && a'.free == a.free && a'.spaces.Keys == a.spaces.Keys
    requires forall r2 :: r2 in a.spaces && r2 != r ==> a'.spaces[r2] == a.spaces[r2]
    requires LeafDiffers(a.spaces[r], a'.spaces[r], v) && UseDiffers(a.uses, a'.uses, r, v)
    requires t in a.uses && a.uses[t].Node? && t < |mem| == |mem'| && mem' == mem[t := mem'[t]]
    requires x in a.uses && x < |mem| && UseOk(mem, a, x)
    requires LeafUse(a.uses[x], r, v) ==> UseOk(mem, a', x)
    ensures UseOk(mem', a', x)
  {
    match a.uses[x]
    case User(r2, w) => assert r2 == r && w != v ==> w in a'.spaces[r].leaf;
    case _ =>
  }

  lemma {:induction false} LeafSpace(mem: Memory, uses: map<nat, Use>, uses': map<nat, Use>, r: nat, sp: Space,
      sp': Space, v: nat)
    requires SpaceOk(mem, uses, r, sp) && (0, v / 512) in sp.node
    requires LeafDiffers(sp, sp', v) && UseDiffers(uses, uses', r, v)
    requires v in sp'.leaf ==> LeafOk(uses', r, sp', v)
    ensures var t := sp.node[(0, v / 512)]; t < |mem| && mem[t].Table? && |mem[t].pte| == ENTRIES
    ensures SpaceOk(PteSet(mem, sp.node[(0, v / 512)], v % 512, LeafEntry(sp', v)), uses', r, sp')
  {
    assert NodeOk(mem, uses, r, sp, 0, v / 512);
    var mem' := PteSet(mem, sp.node[(0, v / 512)], v % 512, LeafEntry(sp', v));
    forall l, k | (l, k) in sp'.node ensures NodeOk(mem', uses', r, sp', l, k) {
      assert NodeOk(mem, uses, r, sp, l, k);
      LeafTable(mem, uses, r, sp, sp', v, l, k);
    }
    forall w | w in sp'.leaf ensures LeafOk(uses', r, sp', w) {
      if w != v {
        assert LeafOk(uses, r, sp, w);
      }
    }
  }

  /** User pages belong to the space that maps them; the trapframe and trampoline
      pages do not. */
  ghost function WithLeaf(a: Abstract, r: nat, v: nat, e: Leaf): Abstract
    requires r in a.spaces
  {
    a.(uses := if v < TRAPFRAME then a.uses[e.ppn := User(r, v)] else a.uses,
       spaces := a.spaces[r := a.spaces[r].(leaf := a.spaces[r].leaf[v := e])])
  }

  ghost function WithoutLeaf(a: Abstract, r: nat, v: nat): Abstract
    requires r in a.spaces && v in a.spaces[r].leaf
  {
    a.(uses := if v < TRAPFRAME then a.uses[a.spaces[r].leaf[v].ppn := Other] else a.uses,
       spaces := a.spaces[r := a.spaces[r].(leaf := a.spaces[r].leaf - {v})])
  }

  ghost predicate FlagsOk(flags: nat) {
    flags < 1024 && flags % 2 == 1 && flags != PTE_V
  }

  /** A page the kernel holds that can become a user page. */
  ghost predicate InHand(mem: Memory, a: Abstract, p: nat) {
    p in a.uses && a.uses[p] == Other && p < |mem| && mem[p].Data? && |mem[p].bytes| == PGSIZE
  }

  lemma {:induction false} SetLeafChange(mem: Memory, freelist: nat, lo: nat, a: Abstract, r: nat, v: nat, e: Leaf)
    requires Inv(mem, freelist, lo, a) && r in a.spaces && (0, v / 512) in a.spaces[r].node
    requires v !in a.spaces[r].leaf && v < VPN_LIMIT && FlagsOk(e.flags)
    requires v < TRAPFRAME ==> InHand(mem, a, e.ppn)
    ensures LeafChange(mem, a, WithLeaf(a, r, v, e), r, v)
  {
    var a' := WithLeaf(a, r, v, e);
    forall p: nat | p in a'.uses && p < |mem| && LeafUse(a.uses[p], r, v) ensures UseOk(mem, a', p) {
      assert UseOk(mem, a, p);
    }
  }

  lemma {:induction false} ClearLeafChange(mem: Memory, freelist: nat, lo: nat, a: Abstract, r: nat, v: nat)
    requires Inv(mem, freelist, lo, a) && r in a.spaces && v in a.spaces[r].leaf
    ensures (0, v / 512) in a.spaces[r].node && LeafChange(mem, a, WithoutLeaf(a, r, v), r, v)
  {
    assert SpaceOk(mem, a.uses, r, a.spaces[r]) && LeafOk(a.uses, r, a.spaces[r], v);
    var a' := WithoutLeaf(a, r, v);
    forall p: nat | p in a'.uses && p < |mem| && LeafUse(a.uses[p], r, v) ensures UseOk(mem, a', p) {
      assert UseOk(mem, a, p);
    }
  }
}
