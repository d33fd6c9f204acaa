/** The page allocator (kernel/kalloc.c) and operations on address spaces
    (kernel/vm.c). */
module Vm {
  import opened Common
  import opened Blocks
  import opened PageTables

  function Filled(x: byte): (p: Page)
    ensures p.Data? && |p.bytes| == PGSIZE && forall i :: 0 <= i < PGSIZE ==> p.bytes[i] == x
  {
    Data(seq(PGSIZE, _ => x))
  }

  predicate InRam(p: nat) {
    RAM_START <= p < RAM_END
  }

  // How pages change hands

  /** Free pages may become tables of space `r`, or user pages x .. y - 1 of it. */
  ghost predicate PageGrew(u: Use, u': Use, r: nat, x: nat, y: nat) {
    u' == u || (u.Free? && (u'.Free? || (u'.Node? && u'.root == r) || (u'.User? && u'.root == r && x <= u'.vpn < y)))
  }

  ghost predicate Held(u: Use) {
    u.User? || u.Other?
  }

  ghost predicate PageKept(mem: Memory, mem': Memory, p: nat) {
    p < |mem| == |mem'| && mem'[p] == mem[p]
  }

  ghost predicate SpacesKept(a: Abstract, a': Abstract, r: nat) {
    && r in a.spaces && a'.spaces.Keys == a.spaces.Keys
    && forall r2 :: r2 in a.spaces && r2 != r ==> a'.spaces[r2] == a.spaces[r2]
  }

  ghost predicate LeafKept(leaf: map<nat, Leaf>, leaf': map<nat, Leaf>, x: nat, y: nat) {
    forall v {:trigger v in leaf'} {:trigger v in leaf} ::
      !(x <= v < y) ==> (v in leaf' <==> v in leaf) && (v in leaf ==> leaf'[v] == leaf[v])
  }

  /** Space `r` has grown by pages x .. y - 1, and by table nodes, at the expense of
      free pages only; no other space and no page in use has changed.  Pages in `e`
      are not spoken of. */
  ghost predicate Grew(mem: Memory, mem': Memory, a: Abstract, a': Abstract, r: nat, x: nat, y: nat, e: set<nat>) {
    && SpacesKept(a, a', r) && a'.uses.Keys == a.uses.Keys
    && (forall p: nat {:trigger a'.uses[p]} :: p in a.uses && p !in e ==> PageGrew(a.uses[p], a'.uses[p], r, x, y))
    && (forall p: nat {:trigger PageKept(mem, mem', p)} ::
           p in a.uses && p !in e && Held(a.uses[p]) ==> PageKept(mem, mem', p))
    && LeafKept(a.spaces[r].leaf, a'.spaces[r].leaf, x, y)
  }

  lemma {:induction false} GrewTrans(m0: Memory, m1: Memory, m2: Memory, a0: Abstract, a1: Abstract, a2: Abstract,
      r: nat, x: nat, y: nat, z: nat, e1: set<nat>, e2: set<nat>)
    requires Grew(m0, m1, a0, a1, r, x, y, e1) && Grew(m1, m2, a1, a2, r, y, z, e2) && x <= y <= z
    ensures Grew(m0, m2, a0, a2, r, x, z, e1 + e2)
  {
    forall p: nat | p in a0.uses && p !in e1 + e2 && Held(a0.uses[p]) ensures PageKept(m0, m2, p) {
      assert PageGrew(a0.uses[p], a1.uses[p], r, x, y);
      assert PageKept(m0, m1, p) && PageKept(m1, m2, p);
    }
  }

  lemma {:induction false} GrewMore(m0: Memory, m1: Memory, m2: Memory, a0: Abstract, a1: Abstract, a2: Abstract,
      r: nat)
    requires Grew(m0, m1, a0, a1, r, 0, 0, {}) && Grew(m1, m2, a1, a2, r, 0, 0, {})
    ensures Grew(m0, m2, a0, a2, r, 0, 0, {})
  {
    var none: set<nat> := {};
    GrewTrans(m0, m1, m2, a0, a1, a2, r, 0, 0, 0, none, none);
    assert none + none == none;
  }

  /** User pages x .. y - 1 of space `r` have been given back: to the free list, or to
      the kernel. */
  ghost predicate PageShrunk(u: Use, u': Use, r: nat, x: nat, y: nat, freed: bool) {
    if u.User? && u.root == r && x <= u.vpn < y then (if freed then u'.Free? else u' == Other) else u' == u
  }

  ghost predicate Shrunk(mem: Memory, mem': Memory, a: Abstract, a': Abstract, r: nat, x: nat, y: nat, freed: bool) {
    && SpacesKept(a, a', r) && a'.uses.Keys == a.uses.Keys && a'.spaces[r].node == a.spaces[r].node
    && (forall p: nat {:trigger a'.uses[p]} :: p in a.uses ==> PageShrunk(a.uses[p], a'.uses[p], r, x, y, freed))
    && (forall p: nat {:trigger PageKept(mem, mem', p)} ::
           p in a.uses && Held(a.uses[p]) && Held(a'.uses[p]) ==> PageKept(mem, mem', p))
    && LeafKept(a.spaces[r].leaf, a'.spaces[r].leaf, x, y)
    && (forall v: nat {:trigger v in a'.spaces[r].leaf} :: x <= v < y ==> v !in a'.spaces[r].leaf)
  }

  lemma {:induction false} ShrunkTrans(m0: Memory, m1: Memory, m2: Memory, a0: Abstract, a1: Abstract, a2: Abstract,
      r: nat, x: nat, y: nat, z: nat, freed: bool)
    requires Shrunk(m0, m1, a0, a1, r, x, y, freed) && Shrunk(m1, m2, a1, a2, r, y, z, freed) && x <= y <= z
    ensures Shrunk(m0, m2, a0, a2, r, x, z, freed)
  {
    forall p: nat | p in a0.uses
      ensures PageShrunk(a0.uses[p], a2.uses[p], r, x, z, freed)
      ensures Held(a0.uses[p]) && Held(a2.uses[p]) ==> PageKept(m0, m2, p)
    {
      assert PageShrunk(a0.uses[p], a1.uses[p], r, x, y, freed) && PageShrunk(a1.uses[p], a2.uses[p], r, y, z, freed);
      if Held(a0.uses[p]) && Held(a2.uses[p]) {
        assert PageKept(m0, m1, p) && PageKept(m1, m2, p);
      }
    }
    forall v: nat | x <= v < z ensures v !in a2.spaces[r].leaf {
      assert x <= v < y ==> v !in a1.spaces[r].leaf;
    }
  }

  lemma {:induction false} ShrunkNext(m0: Memory, m1: Memory, m2: Memory, a0: Abstract, a1: Abstract, a2: Abstract,
      r: nat, x: nat, y: nat, freed: bool)
    requires Shrunk(m0, m1, a0, a1, r, x, y, freed) && Shrunk(m1, m2, a1, a2, r, y, y + 1, freed) && x <= y
    ensures Shrunk(m0, m2, a0, a2, r, x, y + 1, freed)
  {
    ShrunkTrans(m0, m1, m2, a0, a1, a2, r, x, y, y + 1, freed);
  }

  lemma {:induction false} StillMapped(m: Memory, m': Memory, a: Abstract, a': Abstract, r: nat, x: nat, y: nat,
      freed: bool)
    requires Shrunk(m, m', a, a', r, x, y, freed)
    ensures y in a'.spaces[r].leaf <==> y in a.spaces[r].leaf
  {
  }

  /** Pages x .. y - 1 of space `r` are mapped. */
  ghost predicate AllMapped(a: Abstract, r: nat, x: nat, y: nat)
    requires r in a.spaces
  {
    forall v: nat {:trigger v in a.spaces[r].leaf} :: x <= v < y ==> v in a.spaces[r].leaf
  }

  /** Some page between `x` and the trapframe is not mapped. */
  ghost predicate HoleFrom(a: Abstract, r: nat, x: nat)
    requires r in a.spaces
  {
    exists v: nat :: x <= v < TRAPFRAME && v !in a.spaces[r].leaf
  }

  /** `n` pages from `v` on are mapped to `n` pages from `ppn` on, and free pages may
      have become tables; nothing else has changed. */
  ghost predicate MappedRange(m: Memory, m': Memory, a: Abstract, a': Abstract, r: nat, v: nat, n: nat, ppn: nat,
      flags: nat) {
    && Grew(m, m', a, a', r, v, v + n, UserPages(ppn, v, n))
    && forall i: nat :: i < n ==> MappedAt(m, m', a', r, v, ppn, flags, i)
  }

  ghost predicate MappedAt(m: Memory, m': Memory, a': Abstract, r: nat, v: nat, ppn: nat, flags: nat, i: nat) {
    && r in a'.spaces && v + i in a'.spaces[r].leaf && a'.spaces[r].leaf[v + i] == Leaf(ppn + i, flags)
    && (v + i < TRAPFRAME ==> ppn + i in a'.uses && a'.uses[ppn + i] == User(r, v + i) && PageKept(m, m', ppn + i))
  }

  ghost function UserPages(ppn: nat, v: nat, n: nat): set<nat> {
    set p: nat | ppn <= p < ppn + n && MapsUser(p, ppn, v)
  }

  ghost predicate MapsUser(p: nat, ppn: nat, v: nat) {
    v + p < TRAPFRAME + ppn
  }

  lemma {:induction false} OnePage(ppn: nat, v: nat)
    ensures UserPages(ppn, v, 1) == if v < TRAPFRAME then {ppn} else {}
  {
    assert ppn in UserPages(ppn, v, 1) <==> MapsUser(ppn, ppn, v);
  }

  // What growth costs

  ghost function NodesOf(a: Abstract, r: nat): set<(nat, nat)>
    requires r in a.spaces
  {
    a.spaces[r].node.Keys
  }

  /** The tables below the root on the way to page `v`. */
  ghost function Path(v: nat): set<(nat, nat)> {
    {(1, Prefix(1, v)), (0, Prefix(0, v))}
  }

  /** Those on the way to the pages x .. y - 1. */
  ghost function Paths(x: nat, y: nat): set<(nat, nat)> {
    if x >= y then {} else Paths(x, y - 1) + Path(y - 1)
  }

  ghost predicate IsNode(a: Abstract, r: nat, l: nat, k: nat)
    requires r in a.spaces
  {
    (l, k) in a.spaces[r].node
  }

  ghost predicate Among(nodes: set<(nat, nat)>, l: nat, k: nat) {
    (l, k) in nodes
  }

  /** Space `r` has the tables it had and those of `nodes`. */
  ghost predicate Adds(a0: Abstract, a: Abstract, r: nat, nodes: set<(nat, nat)>)
    requires r in a0.spaces && r in a.spaces
  {
    forall l: nat, k: nat {:trigger IsNode(a, r, l, k)} ::
      IsNode(a, r, l, k) <==> IsNode(a0, r, l, k) || Among(nodes, l, k)
  }

  lemma {:induction false} AddsSet(a0: Abstract, a: Abstract, r: nat, nodes: set<(nat, nat)>)
    requires r in a0.spaces && r in a.spaces
    ensures Adds(a0, a, r, nodes) <==> NodesOf(a, r) == NodesOf(a0, r) + nodes
  {
    if Adds(a0, a, r, nodes) {
      forall n: (nat, nat) ensures n in NodesOf(a, r) <==> n in NodesOf(a0, r) + nodes {
        assert IsNode(a, r, n.0, n.1) <==> IsNode(a0, r, n.0, n.1) || Among(nodes, n.0, n.1);
      }
    }
  }

  /** Since `a0`, `pages` pages and the new tables of space `r` have been taken off the free list. */
  ghost predicate Paid(a0: Abstract, a: Abstract, r: nat, pages: nat) {
    && r in a0.spaces && r in a.spaces && NodesOf(a0, r) <= NodesOf(a, r)
    && |a0.free| == |a.free| + |NodesOf(a, r) - NodesOf(a0, r)| + pages
  }

  lemma {:induction false} PaidOn(a0: Abstract, a1: Abstract, a2: Abstract, r: nat, x: nat, y: nat)
    requires Paid(a0, a1, r, x) && Paid(a1, a2, r, y)
    ensures Paid(a0, a2, r, x + y)
  {
    var k0, k1, k2 := NodesOf(a0, r), NodesOf(a1, r), NodesOf(a2, r);
    assert k2 - k0 == (k1 - k0) + (k2 - k1);
  }

  /** One page has been mapped, its tables being paid; or there were not enough pages for them. */
  ghost predicate Charged(a0: Abstract, a: Abstract, r: nat, v: nat, ok: bool) {
    && Paid(a0, a, r, 0) && (ok <==> |a0.free| >= |Path(v) - NodesOf(a0, r)|)
    && (ok ==> Adds(a0, a, r, Path(v)))
  }

  /** The tables that space `r` lacks for the pages x .. y - 1. */
  ghost function TableCost(a: Abstract, r: nat, x: nat, y: nat): nat
    requires r in a.spaces && x <= y
  {
    |Paths(x, y) - NodesOf(a, r)|
  }

  lemma {:induction false} PathsGrow(x: nat, y: nat, z: nat)
    requires x <= y <= z
    ensures Paths(x, y) <= Paths(x, z)
    decreases z
  {
    if y < z {
      PathsGrow(x, y, z - 1);
    }
  }

  lemma {:induction false} CostGrows(a: Abstract, r: nat, x: nat, y: nat, z: nat)
    requires r in a.spaces && x <= y <= z
    ensures TableCost(a, r, x, y) <= TableCost(a, r, x, z)
  {
    PathsGrow(x, y, z);
    SubsetCount(Paths(x, y) - NodesOf(a, r), Paths(x, z) - NodesOf(a, r));
  }

  /** With the tables for the pages before `y` in place, the cost for those from `y` on is the rest. */
  lemma {:induction false} CostSplit(a0: Abstract, a: Abstract, r: nat, x: nat, y: nat, z: nat)
    requires r in a0.spaces && r in a.spaces && x <= y <= z && Adds(a0, a, r, Paths(x, y))
    ensures TableCost(a0, r, x, z) == |NodesOf(a, r) - NodesOf(a0, r)| + TableCost(a, r, y, z)
    ensures Paths(x, z) == Paths(x, y) + Paths(y, z)
  {
    PathsSplit(x, y, z);
    AddsSet(a0, a, r, Paths(x, y));
    var k0, k := NodesOf(a0, r), NodesOf(a, r);
    assert Paths(x, z) - k0 == (k - k0) + (Paths(y, z) - k);
  }

  lemma {:induction false} PathsSplit(x: nat, y: nat, z: nat)
    requires x <= y <= z
    ensures Paths(x, z) == Paths(x, y) + Paths(y, z)
    decreases z
  {
    if y < z {
      PathsSplit(x, y, z - 1);
    }
  }

  lemma {:induction false} OnePath(a: Abstract, r: nat, v: nat)
    requires r in a.spaces
    ensures Paths(v, v + 1) == Path(v) && TableCost(a, r, v, v + 1) == |Path(v) - NodesOf(a, r)|
  {
    assert Paths(v, v) == {};
  }

  /** The tables for the pages x .. y - 1 are there and paid, and `pages` pages besides. */
  ghost predicate PaidFor(a0: Abstract, a: Abstract, r: nat, x: nat, y: nat, pages: nat) {
    x <= y && Paid(a0, a, r, pages) && Adds(a0, a, r, Paths(x, y))
  }

  lemma {:induction false} PaidAll(a0: Abstract, a: Abstract, r: nat, x: nat, y: nat, pages: nat)
    requires PaidFor(a0, a, r, x, y, pages)
    ensures |a0.free| == |a.free| + TableCost(a0, r, x, y) + pages
  {
    AddsSet(a0, a, r, Paths(x, y));
    assert NodesOf(a, r) - NodesOf(a0, r) == Paths(x, y) - NodesOf(a0, r);
  }

  lemma {:induction false} PaidNext(a0: Abstract, a1: Abstract, a: Abstract, r: nat, x: nat, v: nat, pages: nat,
      more: nat)
    requires PaidFor(a0, a1, r, x, v, pages) && Paid(a1, a, r, more) && Adds(a1, a, r, Path(v))
    ensures PaidFor(a0, a, r, x, v + 1, pages + more)
  {
    PaidOn(a0, a1, a, r, pages, more);
    OnePath(a1, r, v);
    PathsSplit(x, v, v + 1);
    AddsSet(a0, a1, r, Paths(x, v));
    AddsSet(a0, a, r, Paths(x, v + 1));
    AddsSet(a1, a, r, Path(v));
  }

  lemma {:induction false} PaidNothing(a: Abstract, r: nat, x: nat)
    requires r in a.spaces
    ensures PaidFor(a, a, r, x, x, 0)
  {
    assert NodesOf(a, r) - NodesOf(a, r) == {};
    AddsSet(a, a, r, Paths(x, x));
    assert Paths(x, x) == {} && NodesOf(a, r) + {} == NodesOf(a, r);
  }

  /** The pages and tables up to `y` are paid, and what is left does not do for page `y`: it has not
      been enough from the beginning. */
  lemma {:induction false} CannotPay(a0: Abstract, a: Abstract, r: nat, x: nat, y: nat, z: nat, pages: nat, more: nat)
    requires PaidFor(a0, a, r, x, y, pages) && y < z && |a.free| < more + |Path(y) - NodesOf(a, r)|
    ensures |a0.free| < TableCost(a0, r, x, z) + pages + more
  {
    OnePath(a, r, y);
    CostSplit(a0, a, r, x, y, y + 1);
    CostGrows(a0, r, x, y + 1, z);
  }

  /** The number of pages that `size` bytes at `va` reach into. */
  function Pages(va: nat, size: nat): nat
    requires size > 0
  {
    (va + size - 1) / PGSIZE - va / PGSIZE + 1
  }

  /** perm | PTE_V */
  function WithV(perm: nat): nat {
    if perm % 2 == 1 then perm else perm + 1
  }

  ghost predicate Mappable(mem: Memory, a: Abstract, r: nat, v: nat, p: int) {
    r in a.spaces && v !in a.spaces[r].leaf && p >= 0 && (v < TRAPFRAME ==> InHand(mem, a, p))
  }

  lemma {:induction false} MappedNext(m0: Memory, m1: Memory, m2: Memory, a0: Abstract, a1: Abstract, a2: Abstract,
      r: nat, v: nat, n: nat, ppn: nat, flags: nat, w: nat, q: nat)
    requires MappedRange(m0, m1, a0, a1, r, v, n, ppn, flags) && MappedRange(m1, m2, a1, a2, r, w, 1, q, flags)
    requires w == v + n && q == ppn + n
    requires Awaiting(m0, m1, a1, r, v, ppn, n)
    ensures MappedRange(m0, m2, a0, a2, r, v, n + 1, ppn, flags)
  {
    GrewTrans(m0, m1, m2, a0, a1, a2, r, v, v + n, v + n + 1, UserPages(ppn, v, n), UserPages(ppn + n, v + n, 1));
    assert UserPages(ppn, v, n) + UserPages(ppn + n, v + n, 1) == UserPages(ppn, v, n + 1);
    forall i: nat | i < n + 1 ensures MappedAt(m0, m2, a2, r, v, ppn, flags, i) {
      if i < n {
        assert MappedAt(m0, m1, a1, r, v, ppn, flags, i);
        assert v + i in a2.spaces[r].leaf;
        assert v + i < TRAPFRAME ==> PageGrew(a1.uses[ppn + i], a2.uses[ppn + i], r, v + n, v + n + 1);
        assert v + i < TRAPFRAME ==> PageKept(m1, m2, ppn + i);
      } else {
        assert MappedAt(m1, m2, a2, r, v + n, ppn + n, flags, 0);
      }
    }
  }

  /** A failed last step changes none of the pages mapped so far. */
  lemma {:induction false} MappedNone(m0: Memory, m1: Memory, m2: Memory, a0: Abstract, a1: Abstract, a2: Abstract,
      r: nat, v: nat, n: nat, ppn: nat, flags: nat)
    requires MappedRange(m0, m1, a0, a1, r, v, n, ppn, flags) && Grew(m1, m2, a1, a2, r, 0, 0, {})
    ensures MappedRange(m0, m2, a0, a2, r, v, n, ppn, flags)
  {
    GrewNone(m1, m2, a1, a2, r, v + n);
    GrewTrans(m0, m1, m2, a0, a1, a2, r, v, v + n, v + n, UserPages(ppn, v, n), {});
    assert UserPages(ppn, v, n) + {} == UserPages(ppn, v, n);
    forall i: nat | i < n ensures MappedAt(m0, m2, a2, r, v, ppn, flags, i) {
      assert MappedAt(m0, m1, a1, r, v, ppn, flags, i);
      assert v + i in a2.spaces[r].leaf;
      assert v + i < TRAPFRAME ==> PageGrew(a1.uses[ppn + i], a2.uses[ppn + i], r, 0, 0) && PageKept(m1, m2, ppn + i);
    }
  }

  lemma {:induction false} GrewNone(m: Memory, m': Memory, a: Abstract, a': Abstract, r: nat, x: nat)
    requires Grew(m, m', a, a', r, 0, 0, {})
    ensures Grew(m, m', a, a', r, x, x, {})
  {
    forall p: nat | p in a.uses && Held(a.uses[p]) ensures PageKept(m, m', p) {
    }
  }

  /** The i-th page to be mapped is still as it was. */
  ghost predicate Awaiting(m0: Memory, mem: Memory, a: Abstract, r: nat, v: nat, ppn: nat, i: nat) {
    Mappable(mem, a, r, v + i, ppn + i) && (v + i < TRAPFRAME ==> PageKept(m0, mem, ppn + i))
  }

  lemma {:induction false} StillAwaiting(m0: Memory, m: Memory, m': Memory, a: Abstract, a': Abstract, r: nat, v: nat,
      ppn: nat, flags: nat, n: nat, i: nat, w: nat, q: nat)
    requires MappedRange(m, m', a, a', r, w, 1, q, flags) && w == v + n && q == ppn + n && n < i
    requires Awaiting(m0, m, a, r, v, ppn, i)
    ensures Awaiting(m0, m', a', r, v, ppn, i)
  {
    OnePage(ppn + n, v + n);
    if v + i < TRAPFRAME {
      assert PageGrew(a.uses[ppn + i], a'.uses[ppn + i], r, v + n, v + n + 1) && PageKept(m, m', ppn + i);
    }
  }

  class PhysicalMemory {
    const lo: nat          // first page after the kernel
    var mem: Memory
    var freelist: nat
    ghost var a: Abstract

    ghost predicate Valid()
      reads this
    {
      Inv(mem, freelist, lo, a)
    }

    // kalloc.c

    /** kinit: every page from `first` on becomes free. */
    constructor (first: nat)
      requires RAM_START <= first <= RAM_END
      ensures Valid() && lo == first && a.spaces == map[] && |a.free| == RAM_END - first
    {
      lo := first;
      mem := seq(RAM_END, _ => Filled(0));
      freelist := 0;
      a := Abstract([], map p: nat | first <= p < RAM_END && InRam(p) :: Other, map[]);
      new;
      FreeRange();
    }

    method FreeRange()
      requires Valid() && a.free == [] && a.spaces == map[] && forall p :: p in a.uses ==> a.uses[p] == Other
      modifies this
      ensures Valid() && a.spaces == map[] && |a.free| == RAM_END - lo
    {
      var p := lo;
      while p < RAM_END
        invariant lo <= p <= RAM_END && Valid() && a.spaces == map[] && |a.free| == p - lo
        invariant forall q: nat :: p <= q < RAM_END ==> q in a.uses && a.uses[q] == Other
      {
        GiveBack(p);
        p := p + 1;
      }
    }

    /** kfree; it panics unless the page lies in RAM, after the kernel. */
    method Kfree(p: nat)
      requires lo <= p < RAM_END == |mem|
      modifies `mem, `freelist
      ensures mem == old(mem)[p := Run(old(freelist))] && freelist == p
    {
      mem := mem[p := Filled(1)];
      mem := mem[p := Run(freelist)];
      freelist := p;
    }

    /** kfree of a page the kernel holds. */
    method GiveBack(p: nat)
      requires Valid() && p in a.uses && a.uses[p] == Other
      modifies this
      ensures Valid() && a == Pushed(old(a), p) && p < |mem| == |old(mem)| && mem == old(mem)[p := Run(old(freelist))]
    {
      PushInv(mem, freelist, lo, a, p);
      Kfree(p);
      a := Pushed(a, p);
    }

    /** A page for the caller, or 0 if there is none. */
    method Kalloc() returns (p: nat)
      requires Valid()
      modifies this
      ensures Valid() && (p == 0 <==> old(a.free) == [])
      ensures p == 0 ==> unchanged(this)
      ensures p != 0 ==> a == Popped(old(a)) && p in old(a.uses) && old(a.uses)[p].Free? && a.uses[p] == Other
      ensures p != 0 ==> p == old(freelist) < |old(mem)| && mem == old(mem)[p := Filled(5)]
    {
      NoneFree(mem, freelist, lo, a);
      p := freelist;
      if p != 0 {
        PopInv(mem, freelist, lo, a, Filled(5));
        freelist := mem[p].next;
        mem := mem[p := Filled(5)];
        a := Popped(a);
      }
    }

    /** kalloc followed by setting the page. */
    method KallocFilled(page: Page) returns (p: nat)
      requires Valid()
      modifies this
      ensures Valid() && (p == 0 <==> old(a.free) == [])
      ensures p == 0 ==> unchanged(this)
      ensures p != 0 ==> a == Popped(old(a)) && p in old(a.uses) && old(a.uses)[p].Free? && a.uses[p] == Other
      ensures p != 0 ==> p == old(freelist) == old(a.free[|a.free| - 1]) < |old(mem)| && mem == old(mem)[p := page]
    {
      p := Kalloc();
      if p != 0 {
        WriteInv(mem, freelist, lo, a, p, page);
        mem := mem[p := page];
      }
    }

    // walk

    /** `t` is the level-`l` table on the way to `vpn`. */
    ghost predicate At(r: nat, l: nat, vpn: nat, t: nat)
      reads this
    {
      r in a.spaces && (l, Prefix(l, vpn)) in a.spaces[r].node && t == a.spaces[r].node[(l, Prefix(l, vpn))]
    }

    /** What walk returns: the level-0 table for `vpn`, 0 if there is none. */
    ghost predicate Bottom(r: nat, vpn: nat, t: nat)
      requires r in a.spaces
      reads this
    {
      && t == (if (0, vpn / 512) in a.spaces[r].node then a.spaces[r].node[(0, vpn / 512)] else 0)
      && (t != 0 ==> TablePage(mem, a.uses, r, t) && mem[t].pte[vpn % 512] == LeafEntry(a.spaces[r], vpn))
    }

    /** The entry for `vpn` in a table above level 0. */
    lemma {:induction false} Descend(r: nat, l: nat, vpn: nat, t: nat)
      requires Valid() && 0 < l <= 2 && At(r, l, vpn, t)
      ensures TablePage(mem, a.uses, r, t)
      ensures IsValid(mem[t].pte[Px(l, vpn)]) <==> (l - 1, Prefix(l - 1, vpn)) in a.spaces[r].node
      ensures IsValid(mem[t].pte[Px(l, vpn)]) ==> At(r, l - 1, vpn, PpnOf(mem[t].pte[Px(l, vpn)]))
    {
      var sp, k := a.spaces[r], Prefix(l, vpn);
      assert SpaceOk(mem, a.uses, r, sp) && NodeOk(mem, a.uses, r, sp, l, k);
      assert EntryOk(mem, sp, l, k, t, Px(l, vpn));
      assert k * 512 + Px(l, vpn) == Prefix(l - 1, vpn);
      if (l - 1, Prefix(l - 1, vpn)) in sp.node {
        PteParts(sp.node[(l - 1, Prefix(l - 1, vpn))], PTE_V);
      }
    }

    lemma {:induction false} Top(r: nat, vpn: nat)
      requires Valid() && r in a.spaces && vpn < VPN_LIMIT
      ensures At(r, 2, vpn, r)
    {
      assert Prefix(1, vpn) == Prefix(0, vpn) / 512;
      assert SpaceOk(mem, a.uses, r, a.spaces[r]);
    }

    lemma {:induction false} Found(r: nat, vpn: nat, t: nat)
      requires Valid() && At(r, 0, vpn, t)
      ensures Bottom(r, vpn, t) && t != 0
    {
      assert SpaceOk(mem, a.uses, r, a.spaces[r]) && NodeOk(mem, a.uses, r, a.spaces[r], 0, vpn / 512);
      assert EntryOk(mem, a.spaces[r], 0, vpn / 512, t, vpn % 512);
    }

    lemma {:induction false} Missing(r: nat, l: nat, vpn: nat)
      requires Valid() && r in a.spaces && l <= 1 && (l, Prefix(l, vpn)) !in a.spaces[r].node
      ensures Bottom(r, vpn, 0)
    {
      assert Prefix(0, vpn) == vpn / 512;
      assert Prefix(1, vpn) == Prefix(0, vpn) / 512;
      assert SpaceOk(mem, a.uses, r, a.spaces[r]);
      assert (0, vpn / 512) in a.spaces[r].node ==> NodeOk(mem, a.uses, r, a.spaces[r], 0, vpn / 512);
    }

    /** walk without allocation. */
    method Walk(r: nat, vpn: nat) returns (t: nat)
      requires Valid() && r in a.spaces && vpn < VPN_LIMIT
      ensures Bottom(r, vpn, t)
    {
      Top(r, vpn);
      var level := 2;
      t := r;
      while level > 0
        invariant level <= 2 && At(r, level, vpn, t)
      {
        Descend(r, level, vpn, t);
        var pte := mem[t].pte[Px(level, vpn)];
        if !IsValid(pte) {
          Missing(r, level - 1, vpn);
          return 0;
        }
        t := PpnOf(pte);
        level := level - 1;
      }
      Found(r, vpn, t);
    }

    /** Distinct pages never share an entry. */
    lemma {:induction false} NoSharedEntry(r: nat, v: nat, w: nat, t: nat, u: nat)
      requires Valid() && r in a.spaces && v < VPN_LIMIT && w < VPN_LIMIT && v != w
      requires Bottom(r, v, t) && Bottom(r, w, u) && t != 0 && u != 0
      ensures (t, v % 512) != (u, w % 512)
    {
      var sp := a.spaces[r];
      assert SpaceOk(mem, a.uses, r, sp) && NodeOk(mem, a.uses, r, sp, 0, v / 512);
      assert NodeOk(mem, a.uses, r, sp, 0, w / 512);
    }

    /** walk with allocation: creates missing tables and changes no translation. */
    method WalkAlloc(r: nat, vpn: nat) returns (t: nat)
      requires Valid() && r in a.spaces && vpn < VPN_LIMIT
      modifies this
      ensures Valid() && Grew(old(mem), mem, old(a), a, r, 0, 0, {})
      ensures Bottom(r, vpn, t) && (t == 0 ==> a.free == [])
      ensures Charged(old(a), a, r, vpn, t != 0)
    {
      Top(r, vpn);
      var level := 2;
      t := r;
      GrewSame(mem, a, r);
      while level > 0
        invariant level <= 2 && Valid() && At(r, level, vpn, t) && Walked(old(mem), mem, old(a), a, r, level, vpn)
      {
        ghost var m1, a1 := mem, a;
        t := WalkTurn(r, level, vpn, t);
        if t == 0 {
          WalkedOn(old(mem), m1, mem, old(a), a1, a, r, level, level, vpn);
          NoneLeft(old(a), a, r, level, vpn);
          return;
        }
        WalkedOn(old(mem), m1, mem, old(a), a1, a, r, level, level - 1, vpn);
        level := level - 1;
      }
      Found(r, vpn, t);
      AllMade(old(a), a, r, vpn);
    }

    /** The tables for `vpn` are there down to level `l`, since the state with `m0` and `a0`. */
    static ghost predicate Walked(m0: Memory, m: Memory, a0: Abstract, a: Abstract, r: nat, l: nat, vpn: nat) {
      && Grew(m0, m, a0, a, r, 0, 0, {}) && Paid(a0, a, r, 0)
      && Adds(a0, a, r, PathFrom(l, vpn))
    }

    static lemma {:induction false} WalkedOn(m0: Memory, m1: Memory, m2: Memory, a0: Abstract, a1: Abstract,
        a2: Abstract, r: nat, l: nat, l': nat, vpn: nat)
      requires Walked(m0, m1, a0, a1, r, l, vpn) && 0 < l <= 2
      requires Grew(m1, m2, a1, a2, r, 0, 0, {}) && Paid(a1, a2, r, 0)
      requires if l' == l then NodesOf(a2, r) == NodesOf(a1, r)
        else l' == l - 1 && Adds(a1, a2, r, {(l', Prefix(l', vpn))})
      ensures Walked(m0, m2, a0, a2, r, l', vpn)
    {
      GrewMore(m0, m1, m2, a0, a1, a2, r);
      PaidOn(a0, a1, a2, r, 0, 0);
      AddsSet(a0, a1, r, PathFrom(l, vpn));
      AddsSet(a1, a2, r, {(l', Prefix(l', vpn))});
      AddsSet(a0, a2, r, PathFrom(l', vpn));
    }

    /** One turn of the loop: the next table, made if there is none. */
    method WalkTurn(r: nat, level: nat, vpn: nat, t: nat) returns (c: nat)
      requires Valid() && 0 < level <= 2 && At(r, level, vpn, t)
      modifies this
      ensures Valid() && Grew(old(mem), mem, old(a), a, r, 0, 0, {}) && Paid(old(a), a, r, 0)
      ensures c == 0 ==> a == old(a) && a.free == [] && Bottom(r, vpn, 0)
      ensures c == 0 ==> (level - 1, Prefix(level - 1, vpn)) !in NodesOf(a, r)
      ensures c != 0 ==> At(r, level - 1, vpn, c)
      ensures c != 0 ==> Adds(old(a), a, r, {(level - 1, Prefix(level - 1, vpn))})
    {
      Descend(r, level, vpn, t);
      GrewSame(mem, a, r);
      var pte := mem[t].pte[Px(level, vpn)];
      if IsValid(pte) {
        c := PpnOf(pte);
        TableNotZero(r, level - 1, vpn, c);
        AddsSet(a, a, r, {(level - 1, Prefix(level - 1, vpn))});
      } else {
        c := AddTable(r, level, vpn, t);
        if c == 0 {
          Missing(r, level - 1, vpn);
        }
      }
    }

    lemma {:induction false} TableNotZero(r: nat, l: nat, vpn: nat, t: nat)
      requires Valid() && At(r, l, vpn, t)
      ensures t != 0
    {
      assert SpaceOk(mem, a.uses, r, a.spaces[r]) && NodeOk(mem, a.uses, r, a.spaces[r], l, Prefix(l, vpn));
    }

    static lemma {:induction false} GrewSame(m: Memory, a0: Abstract, r: nat)
      requires r in a0.spaces && forall p: nat :: p in a0.uses ==> p < |m|
      ensures Grew(m, m, a0, a0, r, 0, 0, {}) && Paid(a0, a0, r, 0) && Adds(a0, a0, r, {})
    {
      assert NodesOf(a0, r) - NodesOf(a0, r) == {};
      AddsSet(a0, a0, r, {});
      forall p: nat | p in a0.uses ensures PageKept(m, m, p) {
      }
    }

    /** The tables below the root, down to level `l`. */
    static ghost function PathFrom(l: nat, vpn: nat): set<(nat, nat)> {
      if l >= 2 then {} else if l == 1 then {(1, Prefix(1, vpn))} else Path(vpn)
    }

    static lemma {:induction false} AllMade(a0: Abstract, a: Abstract, r: nat, vpn: nat)
      requires Paid(a0, a, r, 0) && Adds(a0, a, r, PathFrom(0, vpn))
      ensures Charged(a0, a, r, vpn, true)
    {
      AddsSet(a0, a, r, Path(vpn));
      assert NodesOf(a, r) - NodesOf(a0, r) == Path(vpn) - NodesOf(a0, r);
    }

    static lemma {:induction false} NoneLeft(a0: Abstract, a: Abstract, r: nat, l: nat, vpn: nat)
      requires Paid(a0, a, r, 0) && a.free == [] && 0 < l <= 2 && Adds(a0, a, r, PathFrom(l, vpn))
      requires (l - 1, Prefix(l - 1, vpn)) !in NodesOf(a, r)
      ensures |a0.free| < |Path(vpn) - NodesOf(a0, r)|
    {
      AddsSet(a0, a, r, PathFrom(l, vpn));
      var made, all := NodesOf(a, r) - NodesOf(a0, r), Path(vpn) - NodesOf(a0, r);
      assert made + {(l - 1, Prefix(l - 1, vpn))} <= all;
      SubsetCount(made + {(l - 1, Prefix(l - 1, vpn))}, all);
    }

    /** A zeroed table below table `t`. */
    method AddTable(r: nat, level: nat, vpn: nat, t: nat) returns (c: nat)
      requires Valid() && 0 < level <= 2 && At(r, level, vpn, t)
      requires (level - 1, Prefix(level - 1, vpn)) !in a.spaces[r].node
      modifies this
      ensures Valid() && Grew(old(mem), mem, old(a), a, r, 0, 0, {})
      ensures c == 0 ==> a == old(a) && a.free == []
      ensures c != 0 ==> At(r, level - 1, vpn, c)
      ensures Paid(old(a), a, r, 0)
      ensures c != 0 ==> Adds(old(a), a, r, {(level - 1, Prefix(level - 1, vpn))})
    {
      Descend(r, level, vpn, t);
      c := KallocFilled(ZeroTable());
      if c == 0 {
        return;
      }
      LinkTable(r, level, vpn, t, c);
      Added(old(mem), mem, old(a), a, r, level - 1, Prefix(level - 1, vpn), t, c);
      AddsSet(old(a), a, r, {(level - 1, Prefix(level - 1, vpn))});
      assert NodesOf(a, r) - NodesOf(old(a), r) == {(level - 1, Prefix(level - 1, vpn))};
    }

    lemma {:induction false} Added(m: Memory, m': Memory, a0: Abstract, a': Abstract, r: nat, l: nat, k: nat, t: nat,
        c: nat)
      requires r in a0.spaces && a0.free != [] && c == a0.free[|a0.free| - 1] && c in a0.uses && a0.uses[c].Free?
      requires a' == WithNode(Popped(a0), r, l, k, c)
      requires t in a0.uses && a0.uses[t].Node? && t < |m| == |m'| && c < |m| && m' == m[c := m'[c]][t := m'[t]]
      requires forall p: nat :: p in a0.uses ==> p < |m|
      ensures Grew(m, m', a0, a', r, 0, 0, {})
    {
      forall p: nat | p in a0.uses && Held(a0.uses[p]) ensures PageKept(m, m', p) {
      }
    }

    /** Enters table `c` in table `t`. */
    method LinkTable(r: nat, level: nat, vpn: nat, t: nat, c: nat)
      requires Valid() && 0 < level <= 2 && At(r, level, vpn, t)
      requires Addable(mem, a, r, level - 1, Prefix(level - 1, vpn), c)
      modifies this
      ensures Valid() && At(r, level - 1, vpn, c) && a == WithNode(old(a), r, level - 1, Prefix(level - 1, vpn), c)
      ensures t in a.uses && a.uses[t] == Node(r, level, Prefix(level, vpn)) && t < |mem| == |old(mem)|
      ensures mem == old(mem)[t := mem[t]]
    {
      ghost var l, k := level - 1, Prefix(level - 1, vpn);
      assert Prefix(level, vpn) == k / 512 && Px(level, vpn) == k % 512;
      assert SpaceOk(mem, a.uses, r, a.spaces[r]) && NodeOk(mem, a.uses, r, a.spaces[r], level, k / 512);
      AddNodeInv(mem, freelist, lo, a, r, l, k, c);
      mem := PteSet(mem, t, Px(level, vpn), Pte(c, PTE_V));
      a := WithNode(a, r, l, k, c);
    }

    // mappages

    /** One turn of the loop in mappages. */
    method MapPage(r: nat, v: nat, ppn: nat, flags: nat) returns (ok: bool)
      requires Valid() && v < VPN_LIMIT && Mappable(mem, a, r, v, ppn) && FlagsOk(flags)
      modifies this
      ensures Valid()
      ensures ok ==> MappedRange(old(mem), mem, old(a), a, r, v, 1, ppn, flags)
      ensures !ok ==> a.free == [] && Grew(old(mem), mem, old(a), a, r, 0, 0, {})
      ensures Charged(old(a), a, r, v, ok)
    {
      var t := WalkAlloc(r, v);
      if t == 0 {
        return false;
      }
      ghost var m1, a1 := mem, a;
      if v < TRAPFRAME {
        StillInHand(old(mem), mem, old(a), a, r, ppn);
      }
      assert v !in a.spaces[r].leaf;
      SetPte(r, v, ppn, flags, t);
      GrewMapped(old(mem), m1, mem, old(a), a1, a, r, v, ppn, flags, t);
      LeafCharged(old(a), a1, a, r, v, Leaf(ppn, flags));
      ok := true;
    }

    static lemma {:induction false} LeafCharged(a0: Abstract, a1: Abstract, a2: Abstract, r: nat, v: nat, leaf: Leaf)
      requires Charged(a0, a1, r, v, true) && a2 == WithLeaf(a1, r, v, leaf)
      ensures Charged(a0, a2, r, v, true)
    {
      AddsSet(a0, a1, r, Path(v));
      AddsSet(a0, a2, r, Path(v));
    }

    /** Page-table entries for a range of pages; it fails only when no page is left for
        a table, and then has mapped the first `n` pages. */
    method Mappages(r: nat, va: nat, size: nat, ppn: nat, perm: nat) returns (ok: bool, ghost n: nat)
      requires Valid() && r in a.spaces && size > 0 && (va + size - 1) / PGSIZE < VPN_LIMIT
      requires perm < 1024 && FlagsOk(WithV(perm))
      requires forall i: nat :: i < Pages(va, size) ==> Awaiting(mem, mem, a, r, va / PGSIZE, ppn, i)
      modifies this
      ensures Valid() && MappedRange(old(mem), mem, old(a), a, r, va / PGSIZE, n, ppn, WithV(perm))
      ensures n <= Pages(va, size) && (ok <==> n == Pages(va, size)) && (!ok ==> a.free == [])
      ensures Pages(va, size) == 1 ==> Charged(old(a), a, r, va / PGSIZE, ok)
    {
      var v, last := va / PGSIZE, (va + size - 1) / PGSIZE;
      GrewSelf(mem, a, r, v, ppn);
      ok := MapTurn(r, v, ppn, WithV(perm), mem, a, v, 0, ppn, last + 1 - v);
      n := if ok then 1 else 0;
      if ok && v != last {
        ok, n := MapRest(r, v, last, ppn, WithV(perm), old(mem), old(a));
      }
    }

    /** The turns of the loop after the first, up to the page `last`. */
    method MapRest(r: nat, first: nat, last: nat, ppn: nat, flags: nat, ghost m0: Memory, ghost a0: Abstract)
        returns (ok: bool, ghost n: nat)
      requires Valid() && first < last < VPN_LIMIT && FlagsOk(flags)
      requires MappedRange(m0, mem, a0, a, r, first, 1, ppn, flags)
      requires forall i: nat :: 1 <= i < last + 1 - first ==> Awaiting(m0, mem, a, r, first, ppn, i)
      modifies this
      ensures Valid() && MappedRange(m0, mem, a0, a, r, first, n, ppn, flags)
      ensures n <= last + 1 - first && (ok <==> n == last + 1 - first) && (!ok ==> a.free == [])
    {
      var v, pa := first + 1, ppn + 1;
      n := 1;
      while true
        invariant first < v <= last && n == v - first && pa == ppn + n && Valid()
        invariant MappedRange(m0, mem, a0, a, r, first, n, ppn, flags)
        invariant forall i: nat :: n <= i < last + 1 - first ==> Awaiting(m0, mem, a, r, first, ppn, i)
        decreases last - v
      {
        ok := MapTurn(r, v, pa, flags, m0, a0, first, n, ppn, last + 1 - first);
        if !ok {
          return;
        }
        n := n + 1;
        if v == last {
          break;
        }
        v, pa := v + 1, pa + 1;
      }
    }

    method MapTurn(r: nat, v: nat, pa: nat, flags: nat, ghost m0: Memory, ghost a0: Abstract, ghost first: nat,
        ghost n: nat, ghost ppn: nat, ghost all: nat)
        returns (ok: bool)
      requires Valid() && v == first + n < VPN_LIMIT && pa == ppn + n && n < all && FlagsOk(flags)
      requires MappedRange(m0, mem, a0, a, r, first, n, ppn, flags)
      requires forall i: nat :: n <= i < all ==> Awaiting(m0, mem, a, r, first, ppn, i)
      modifies this
      ensures Valid() && MappedRange(m0, mem, a0, a, r, first, if ok then n + 1 else n, ppn, flags)
      ensures !ok ==> a.free == []
      ensures ok ==> forall i: nat :: n < i < all ==> Awaiting(m0, mem, a, r, first, ppn, i)
      ensures Charged(old(a), a, r, v, ok)
    {
      ghost var m1, a1 := mem, a;
      assert Awaiting(m0, mem, a, r, first, ppn, n);
      ok := MapPage(r, v, pa, flags);
      if !ok {
        MappedNone(m0, m1, mem, a0, a1, a, r, first, n, ppn, flags);
        return;
      }
      MappedNext(m0, m1, mem, a0, a1, a, r, first, n, ppn, flags, v, pa);
      forall i: nat | n < i < all ensures Awaiting(m0, mem, a, r, first, ppn, i) {
        StillAwaiting(m0, m1, mem, a1, a, r, first, ppn, flags, n, i, v, pa);
      }
    }

    lemma {:induction false} GrewSelf(m: Memory, a0: Abstract, r: nat, v: nat, ppn: nat)
      requires r in a0.spaces && forall p: nat :: p in a0.uses ==> p < |m|
      ensures Grew(m, m, a0, a0, r, v, v, UserPages(ppn, v, 0))
    {
      forall p: nat | p in a0.uses ensures PageKept(m, m, p) {
      }
    }

    method SetPte(r: nat, v: nat, ppn: nat, flags: nat, t: nat)
      requires Valid() && r in a.spaces && v < VPN_LIMIT && v !in a.spaces[r].leaf && FlagsOk(flags)
      requires v < TRAPFRAME ==> InHand(mem, a, ppn)
      requires Bottom(r, v, t) && t != 0
      modifies this
      ensures Valid() && a == WithLeaf(old(a), r, v, Leaf(ppn, flags))
      ensures TablePage(old(mem), old(a.uses), r, t) && |mem| == |old(mem)| && mem == old(mem)[t := mem[t]]
    {
      assert !IsValid(mem[t].pte[v % 512]);  // or else a remap
      SetLeafChange(mem, freelist, lo, a, r, v, Leaf(ppn, flags));
      LeafInv(mem, freelist, lo, a, WithLeaf(a, r, v, Leaf(ppn, flags)), r, v);
      mem := PteSet(mem, t, v % 512, Pte(ppn, flags));
      a := WithLeaf(a, r, v, Leaf(ppn, flags));
    }

    lemma {:induction false} StillInHand(m: Memory, m': Memory, a0: Abstract, a': Abstract, r: nat, p: nat)
      requires Grew(m, m', a0, a', r, 0, 0, {}) && InHand(m, a0, p)
      ensures InHand(m', a', p) && PageKept(m, m', p)
    {
      assert PageGrew(a0.uses[p], a'.uses[p], r, 0, 0);
      assert PageKept(m, m', p);
    }

    lemma {:induction false} GrewMapped(m0: Memory, m1: Memory, m2: Memory, a0: Abstract, a1: Abstract, a2: Abstract,
        r: nat, v: nat, ppn: nat, flags: nat, t: nat)
      requires Grew(m0, m1, a0, a1, r, 0, 0, {}) && r in a1.spaces && a2 == WithLeaf(a1, r, v, Leaf(ppn, flags))
      requires v < TRAPFRAME ==> ppn in a1.uses && a1.uses[ppn] == Other && PageKept(m0, m1, ppn)
      requires t in a1.uses && a1.uses[t].Node? && t < |m1| == |m2| && m2 == m1[t := m2[t]]
      ensures MappedRange(m0, m2, a0, a2, r, v, 1, ppn, flags)
    {
      OnePage(ppn, v);
      var x := UserPages(ppn, v, 1);
      forall p: nat | p in a0.uses && p !in x && Held(a0.uses[p]) ensures PageKept(m0, m2, p) {
        assert PageKept(m0, m1, p);
        assert PageGrew(a0.uses[p], a1.uses[p], r, 0, 0);
      }
      forall i: nat | i < 1 ensures MappedAt(m0, m2, a2, r, v, ppn, flags, i) {
      }
    }

    // uvmunmap

    /** The entry of a mapped page passes the checks of uvmunmap and uvmcopy. */
    lemma {:induction false} MappedEntry(r: nat, v: nat, t: nat)
      requires Valid() && r in a.spaces && v in a.spaces[r].leaf && Bottom(r, v, t)
      ensures t != 0 && IsValid(mem[t].pte[v % 512]) && FlagsOf(mem[t].pte[v % 512]) != PTE_V
      ensures Leaf(PpnOf(mem[t].pte[v % 512]), FlagsOf(mem[t].pte[v % 512])) == a.spaces[r].leaf[v]
      ensures v < TRAPFRAME ==> lo <= a.spaces[r].leaf[v].ppn < RAM_END
    {
      var sp := a.spaces[r];
      assert SpaceOk(mem, a.uses, r, sp) && LeafOk(a.uses, r, sp, v) && NodeOk(mem, a.uses, r, sp, 0, v / 512);
      PteParts(sp.leaf[v].ppn, sp.leaf[v].flags);
    }

    /** The entry of a page that is not mapped does not pass them. */
    lemma {:induction false} UnmappedEntry(r: nat, v: nat, t: nat)
      requires Valid() && r in a.spaces && v !in a.spaces[r].leaf && Bottom(r, v, t) && t != 0
      ensures !IsValid(mem[t].pte[v % 512])
    {
    }

    lemma {:induction false} MappedBelowLimit(r: nat, v: nat)
      requires Valid() && r in a.spaces && v in a.spaces[r].leaf
      ensures v < VPN_LIMIT
    {
      assert SpaceOk(mem, a.uses, r, a.spaces[r]) && LeafOk(a.uses, r, a.spaces[r], v);
    }

    /** One turn of the loop in uvmunmap; walk panics beyond the last address. */
    method UnmapPage(r: nat, v: nat, doFree: bool) returns (panics: bool)
      requires Valid() && r in a.spaces && (doFree && v in a.spaces[r].leaf ==> v < TRAPFRAME)
      modifies this
      ensures Valid() && (panics <==> v !in old(a).spaces[r].leaf)
      ensures !panics ==> Shrunk(old(mem), mem, old(a), a, r, v, v + 1, doFree)
    {
      if v >= VPN_LIMIT {
        assert v in a.spaces[r].leaf ==> v < VPN_LIMIT by {
          if v in a.spaces[r].leaf {
            MappedBelowLimit(r, v);
          }
        }
        return true;
      }
      var t := Walk(r, v);
      if v in a.spaces[r].leaf {
        MappedEntry(r, v, t);
      } else if t != 0 {
        UnmappedEntry(r, v, t);
      }
      if t == 0 {
        return true;
      }
      var pte := mem[t].pte[v % 512];
      if !IsValid(pte) {
        return true;
      }
      assert FlagsOf(pte) != PTE_V;
      ghost var m0, f0 := mem, freelist;
      UnmapStep(r, v, t, doFree);
      if doFree {
        Kfree(PpnOf(pte));
      }
      mem := PteSet(mem, t, v % 512, 0);
      assert mem == UnmapMem(m0, f0, t, v, PpnOf(pte), doFree);
      a := UnmapAbs(a, r, v, doFree);
      return false;
    }

    /** Freeing the page and clearing its entry, in either order. */
    static ghost function UnmapMem(m: Memory, freelist: nat, t: nat, v: nat, p: nat, doFree: bool): Memory
      requires t < |m| && m[t].Table? && |m[t].pte| == ENTRIES && (doFree ==> p < |m| && p != t)
    {
      if doFree then PteSet(m, t, v % 512, 0)[p := Run(freelist)] else PteSet(m, t, v % 512, 0)
    }

    static ghost function UnmapAbs(a: Abstract, r: nat, v: nat, doFree: bool): Abstract
      requires r in a.spaces && v in a.spaces[r].leaf
    {
      if doFree then Pushed(WithoutLeaf(a, r, v), a.spaces[r].leaf[v].ppn) else WithoutLeaf(a, r, v)
    }

    lemma {:induction false} UnmapStep(r: nat, v: nat, t: nat, doFree: bool)
      requires Valid() && r in a.spaces && v in a.spaces[r].leaf && Bottom(r, v, t) && (doFree ==> v < TRAPFRAME)
      ensures TablePage(mem, a.uses, r, t)
      ensures (doFree ==> a.spaces[r].leaf[v].ppn < |mem| && a.spaces[r].leaf[v].ppn != t)
      ensures Inv(UnmapMem(mem, freelist, t, v, a.spaces[r].leaf[v].ppn, doFree),
          if doFree then a.spaces[r].leaf[v].ppn else freelist, lo, UnmapAbs(a, r, v, doFree))
      ensures Shrunk(mem, UnmapMem(mem, freelist, t, v, a.spaces[r].leaf[v].ppn, doFree), a,
          UnmapAbs(a, r, v, doFree), r, v, v + 1, doFree)
    {
      var p, a1 := a.spaces[r].leaf[v].ppn, WithoutLeaf(a, r, v);
      UnmapInv(r, v, t);
      if doFree {
        PushInv(PteSet(mem, t, v % 512, 0), freelist, lo, a1, p);
      }
      Unmapped(mem, UnmapMem(mem, freelist, t, v, p, doFree), a, UnmapAbs(a, r, v, doFree), r, v, t, doFree);
    }

    lemma {:induction false} UnmapInv(r: nat, v: nat, t: nat)
      requires Valid() && r in a.spaces && v in a.spaces[r].leaf && Bottom(r, v, t)
      ensures TablePage(mem, a.uses, r, t) && Inv(PteSet(mem, t, v % 512, 0), freelist, lo, WithoutLeaf(a, r, v))
      ensures v < TRAPFRAME ==> a.spaces[r].leaf[v].ppn in a.uses && a.uses[a.spaces[r].leaf[v].ppn] == User(r, v)
    {
      ClearLeafChange(mem, freelist, lo, a, r, v);
      LeafInv(mem, freelist, lo, a, WithoutLeaf(a, r, v), r, v);
      assert SpaceOk(mem, a.uses, r, a.spaces[r]) && LeafOk(a.uses, r, a.spaces[r], v);
    }

    lemma {:induction false} Unmapped(m: Memory, m': Memory, a0: Abstract, a': Abstract, r: nat, v: nat, t: nat,
        doFree: bool)
      requires r in a0.spaces && v in a0.spaces[r].leaf && TablePage(m, a0.uses, r, t) && (doFree ==> v < TRAPFRAME)
      requires forall p: nat :: p in a0.uses ==> p < |m| && UseOk(m, a0, p)
      requires var p := a0.spaces[r].leaf[v].ppn; v < TRAPFRAME ==> p in a0.uses && a0.uses[p] == User(r, v)
      requires |m'| == |m|
      requires forall q: nat ::
        q < |m| && q != t && !(doFree && q == a0.spaces[r].leaf[v].ppn) ==> m'[q] == m[q]
      requires a' == if doFree then Pushed(WithoutLeaf(a0, r, v), a0.spaces[r].leaf[v].ppn) else WithoutLeaf(a0, r, v)
      ensures Shrunk(m, m', a0, a', r, v, v + 1, doFree)
    {
      forall p: nat | p in a0.uses ensures PageShrunk(a0.uses[p], a'.uses[p], r, v, v + 1, doFree) {
        assert UseOk(m, a0, p);
      }
      forall p: nat | p in a0.uses && Held(a0.uses[p]) && Held(a'.uses[p]) ensures PageKept(m, m', p) {
      }
    }

    /** Removes the mappings of `npages` pages from `v` on, and frees the pages if asked
        to; panics exactly if one of them is not mapped. */
    method Uvmunmap(r: nat, v: nat, npages: nat, doFree: bool) returns (panics: bool)
      requires Valid() && r in a.spaces && (doFree ==> v + npages <= TRAPFRAME || HoleFrom(a, r, v))
      modifies this
      ensures Valid() && (panics <==> !AllMapped(old(a), r, v, v + npages))
      ensures !panics ==> Shrunk(old(mem), mem, old(a), a, r, v, v + npages, doFree)
    {
      var w := v;
      ShrunkSelf(mem, a, r, v, doFree);
      while w < v + npages
        invariant v <= w <= v + npages && Valid() && Shrunk(old(mem), mem, old(a), a, r, v, w, doFree)
        invariant AllMapped(old(a), r, v, w)
      {
        panics := UnmapTurn(r, v, w, npages, doFree, old(mem), old(a));
        if panics {
          return;
        }
        w := w + 1;
      }
      panics := false;
    }

    method UnmapTurn(r: nat, ghost v: nat, w: nat, ghost npages: nat, doFree: bool, ghost m0: Memory,
        ghost a0: Abstract)
        returns (panics: bool)
      requires Valid() && v <= w < v + npages
      requires Shrunk(m0, mem, a0, a, r, v, w, doFree) && AllMapped(a0, r, v, w)
      requires doFree ==> v + npages <= TRAPFRAME || HoleFrom(a0, r, v)
      modifies this
      ensures Valid() && (panics <==> w !in a0.spaces[r].leaf)
      ensures !panics ==> Shrunk(m0, mem, a0, a, r, v, w + 1, doFree) && AllMapped(a0, r, v, w + 1)
    {
      ghost var m1, a1 := mem, a;
      StillMapped(m0, mem, a0, a, r, v, w, doFree);
      panics := UnmapPage(r, w, doFree);
      if !panics {
        ShrunkNext(m0, m1, mem, a0, a1, a, r, v, w, doFree);
      }
    }

    lemma {:induction false} ShrunkSelf(m: Memory, a0: Abstract, r: nat, v: nat, doFree: bool)
      requires r in a0.spaces && forall p: nat :: p in a0.uses ==> p < |m|
      ensures Shrunk(m, m, a0, a0, r, v, v, doFree)
    {
      forall p: nat | p in a0.uses ensures PageKept(m, m, p) {
      }
    }
  }
}
