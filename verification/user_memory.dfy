/** User memory (kernel/vm.c, growproc in kernel/proc.c): growing, shrinking, copying
    and freeing the pages of an address space. */
module UserMemory {
  import opened Common
  import opened PageTables
  import opened Vm

  /** The user pages of a space are exactly 0 .. n - 1. */
  ghost predicate Dense(a: Abstract, r: nat, n: nat) {
    && r in a.spaces && n <= TRAPFRAME
    && forall v: nat {:trigger v in a.spaces[r].leaf} ::
      v < TRAPFRAME ==> (v in a.spaces[r].leaf <==> v < n)
  }

  /** PGROUNDUP(sz) / PGSIZE */
  function PageCount(sz: nat): nat {
    (sz + PGSIZE - 1) / PGSIZE
  }

  // Counting pages

  ghost function Taken(leaf: map<nat, Leaf>, n: nat): set<nat>
    requires forall v: nat :: v < n ==> v in leaf
  {
    if n == 0 then {} else Taken(leaf, n - 1) + {leaf[n - 1].ppn}
  }

  lemma {:induction false} TakenCount(mem: Memory, freelist: nat, lo: nat, a: Abstract, r: nat, n: nat, m: nat)
    requires Inv(mem, freelist, lo, a) && Dense(a, r, n) && m <= n
    ensures |Taken(a.spaces[r].leaf, m)| == m
    ensures forall p ::
      p in Taken(a.spaces[r].leaf, m) ==> p in a.uses && a.uses[p].User? && a.uses[p].root == r && a.uses[p].vpn < m
  {
    if m > 0 {
      TakenCount(mem, freelist, lo, a, r, n, m - 1);
      assert SpaceOk(mem, a.uses, r, a.spaces[r]) && LeafOk(a.uses, r, a.spaces[r], m - 1);
    }
  }

  /** While there is a page that is not a user page, an address space has fewer pages
      than RAM: it cannot reach the trapframe. */
  lemma {:induction false} BelowTrapframe(mem: Memory, freelist: nat, lo: nat, a: Abstract, r: nat, n: nat, p: nat)
    requires Inv(mem, freelist, lo, a) && Dense(a, r, n) && p in a.uses && !a.uses[p].User?
    ensures n < RAM_END - lo < TRAPFRAME
  {
    var taken := Taken(a.spaces[r].leaf, n);
    TakenCount(mem, freelist, lo, a, r, n, n);
    RangeCount(lo, RAM_END - lo);
    assert p !in taken && taken + {p} <= Range(lo, RAM_END - lo);
    SubsetCount(taken + {p}, Range(lo, RAM_END - lo));
  }

  // What growth costs

  /** Pages off the free list for the pages x .. y - 1 of space `r` and the tables it lacks for them. */
  ghost function Cost(a: Abstract, r: nat, x: nat, y: nat): nat
    requires r in a.spaces && x <= y
  {
    y - x + TableCost(a, r, x, y)
  }

  /** There are enough free pages for that. */
  ghost predicate Affords(a: Abstract, r: nat, x: nat, y: nat)
    requires r in a.spaces && x <= y
  {
    |a.free| >= Cost(a, r, x, y)
  }

  /** Page `v` and its tables have been paid; or there were not enough pages for them. */
  ghost predicate Bought(a0: Abstract, a: Abstract, r: nat, v: nat, ok: bool) {
    && r in a0.spaces && r in a.spaces && (ok <==> |a0.free| >= 1 + |Path(v) - NodesOf(a0, r)|)
    && (ok ==> Paid(a0, a, r, 1) && Adds(a0, a, r, Path(v)))
  }

  lemma {:induction false} PageBought(a0: Abstract, a1: Abstract, a: Abstract, r: nat, v: nat, ok: bool)
    requires a0.free != [] && a1 == Popped(a0) && Charged(a1, a, r, v, ok)
    ensures r in a0.spaces && NodesOf(a1, r) == NodesOf(a0, r) && (ok ==> Bought(a0, a, r, v, true))
    ensures !ok ==> |a0.free| < 1 + |Path(v) - NodesOf(a0, r)|
  {
    AddsSet(a1, a, r, Path(v));
    AddsSet(a0, a, r, Path(v));
  }

  lemma {:induction false} CannotGrow(a0: Abstract, a1: Abstract, r: nat, x: nat, v: nat, end: nat)
    requires x <= v < end && PaidFor(a0, a1, r, x, v, v - x) && |a1.free| < 1 + |Path(v) - NodesOf(a1, r)|
    ensures !Affords(a0, r, x, end)
  {
    CannotPay(a0, a1, r, x, v, end, v - x, 1);
  }

  lemma {:induction false} CouldGrow(a0: Abstract, a: Abstract, r: nat, x: nat, y: nat)
    requires x <= y && PaidFor(a0, a, r, x, y, y - x)
    ensures |a0.free| == |a.free| + Cost(a0, r, x, y) && Affords(a0, r, x, y)
  {
    PaidAll(a0, a, r, x, y, y - x);
  }

  // Steps composed

  /** A page taken from the free list and mapped. */
  lemma {:induction false} AllocMapped(m1: Memory, m2: Memory, m3: Memory, a1: Abstract, a2: Abstract, a3: Abstract,
      r: nat, v: nat, p: nat, page: Page, flags: nat)
    requires a1.free != [] && p == a1.free[|a1.free| - 1] && p in a1.uses && a1.uses[p].Free? && a2 == Popped(a1)
    requires p < |m1| && m2 == m1[p := page] && v < TRAPFRAME && MappedRange(m2, m3, a2, a3, r, v, 1, p, flags)
    requires forall q: nat :: q in a1.uses ==> q < |m1|
    ensures Grew(m1, m3, a1, a3, r, v, v + 1, {}) && p < |m3| && m3[p] == page
    ensures v in a3.spaces[r].leaf && a3.spaces[r].leaf[v] == Leaf(p, flags)
  {
    OnePage(p, v);
    assert MappedAt(m2, m3, a3, r, v, p, flags, 0);
    forall q: nat | q in a1.uses && Held(a1.uses[q]) ensures PageKept(m1, m3, q) {
      assert PageKept(m2, m3, q);
    }
    forall q: nat | q in a1.uses ensures PageGrew(a1.uses[q], a3.uses[q], r, v, v + 1) {
      assert q != p ==> PageGrew(a2.uses[q], a3.uses[q], r, v, v + 1);
    }
  }

  /** A page taken, not mapped for want of a table, and given back. */
  lemma {:induction false} AllocUndone(m1: Memory, m2: Memory, m3: Memory, m4: Memory, a1: Abstract, a2: Abstract,
      a3: Abstract, r: nat, v: nat, p: nat, page: Page, flags: nat)
    requires a1.free != [] && p == a1.free[|a1.free| - 1] && p in a1.uses && a1.uses[p].Free? && a2 == Popped(a1)
    requires p < |m1| && m2 == m1[p := page] && MappedRange(m2, m3, a2, a3, r, v, 0, p, flags)
    requires p < |m3| == |m4| && m4 == m3[p := m4[p]]
    requires forall q: nat :: q in a1.uses ==> q < |m1|
    ensures p in a3.uses && a3.uses[p] == Other && Grew(m1, m4, a1, Pushed(a3, p), r, v, v, {})
  {
    assert UserPages(p, v, 0) == {};
    var a4 := Pushed(a3, p);
    assert PageGrew(a2.uses[p], a3.uses[p], r, v, v);
    forall q: nat | q in a1.uses && Held(a1.uses[q]) ensures PageKept(m1, m4, q) {
      assert PageKept(m2, m3, q);
    }
    forall q: nat | q in a1.uses ensures PageGrew(a1.uses[q], a4.uses[q], r, v, v) {
      assert q != p ==> PageGrew(a2.uses[q], a3.uses[q], r, v, v);
    }
  }

  /** Growth followed by giving the new pages back leaves at most new tables. */
  lemma {:induction false} GrewShrunk(m0: Memory, m1: Memory, m2: Memory, a0: Abstract, a1: Abstract, a2: Abstract,
      r: nat, x: nat, y: nat)
    requires Grew(m0, m1, a0, a1, r, x, y, {}) && Shrunk(m1, m2, a1, a2, r, x, y, true)
    requires forall p: nat :: p in a0.uses && a0.uses[p].User? && a0.uses[p].root == r ==> a0.uses[p].vpn < x
    requires forall v: nat :: x <= v < y ==> v !in a0.spaces[r].leaf
    ensures Grew(m0, m2, a0, a2, r, x, x, {})
  {
    forall p: nat | p in a0.uses ensures PageGrew(a0.uses[p], a2.uses[p], r, x, x) {
      assert PageGrew(a0.uses[p], a1.uses[p], r, x, y) && PageShrunk(a1.uses[p], a2.uses[p], r, x, y, true);
    }
    forall p: nat | p in a0.uses && Held(a0.uses[p]) ensures PageKept(m0, m2, p) {
      assert PageGrew(a0.uses[p], a1.uses[p], r, x, y) && PageShrunk(a1.uses[p], a2.uses[p], r, x, y, true);
      assert PageKept(m0, m1, p) && PageKept(m1, m2, p);
    }
  }

  lemma {:induction false} DenseUsers(mem: Memory, freelist: nat, lo: nat, a: Abstract, r: nat, n: nat)
    requires Inv(mem, freelist, lo, a) && Dense(a, r, n)
    ensures forall p: nat :: p in a.uses && a.uses[p].User? && a.uses[p].root == r ==> a.uses[p].vpn < n
  {
    forall p: nat | p in a.uses && a.uses[p].User? && a.uses[p].root == r ensures a.uses[p].vpn < n {
      assert UseOk(mem, a, p);
    }
  }

  // uvmdealloc and uvmalloc

  lemma {:induction false} DenseShrunk(m: Memory, m': Memory, a: Abstract, a': Abstract, r: nat, n: nat, x: nat)
    requires Dense(a, r, n) && x <= n && Shrunk(m, m', a, a', r, x, n, true)
    ensures Dense(a', r, x)
  {
    forall v: nat | v < TRAPFRAME ensures v in a'.spaces[r].leaf <==> v < x {
      assert v in a.spaces[r].leaf <==> v < n;
    }
  }

  lemma {:induction false} DenseGrew(m: Memory, m': Memory, a: Abstract, a': Abstract, r: nat, n: nat)
    requires Dense(a, r, n) && n < TRAPFRAME && Grew(m, m', a, a', r, n, n + 1, {}) && n in a'.spaces[r].leaf
    ensures Dense(a', r, n + 1)
  {
    forall v: nat | v < TRAPFRAME ensures v in a'.spaces[r].leaf <==> v < n + 1 {
      assert v in a.spaces[r].leaf <==> v < n;
    }
  }

  lemma {:induction false} DenseSame(m: Memory, m': Memory, a: Abstract, a': Abstract, r: nat, n: nat, x: nat)
    requires Dense(a, r, n) && Grew(m, m', a, a', r, x, x, {})
    ensures Dense(a', r, n)
  {
    forall v: nat | v < TRAPFRAME ensures v in a'.spaces[r].leaf <==> v < n {
      assert v in a.spaces[r].leaf <==> v < n;
    }
  }

  const UINT64_LIMIT: nat := 0x1_0000_0000_0000_0000
  const MAXVA: nat := VPN_LIMIT * PGSIZE

  /** PGROUNDUP(sz) / PGSIZE in 64-bit arithmetic */
  function RoundedPages(sz: nat): nat {
    (sz + PGSIZE - 1) % UINT64_LIMIT / PGSIZE
  }

  /** A number of pages stored in an int */
  function AsInt(n: nat): int {
    var m := n % 0x1_0000_0000;
    if m < 0x8000_0000 then m else m - 0x1_0000_0000
  }

  /** The page at which uvmunmap stops if it starts at page `x` and is told to remove
      `npages`, as an int that becomes 64 bits wide there. */
  function StopPage(x: nat, npages: int): (y: nat)
    requires x < UINT64_LIMIT / PGSIZE && -0x8000_0000 <= npages < 0x8000_0000 && x + npages < UINT64_LIMIT / PGSIZE
    ensures x <= y
  {
    if npages >= 0 then x + npages
    else if x + npages >= 0 then x
    else x + npages + UINT64_LIMIT / PGSIZE
  }

  /** Where uvmdealloc stops unmapping; it starts at RoundedPages(newsz). */
  function DeallocStop(oldsz: nat, newsz: nat): (y: nat)
    ensures RoundedPages(newsz) <= y
  {
    var x, n := RoundedPages(newsz), RoundedPages(oldsz);
    if newsz < oldsz && x < n then AsIntBound(n - x); StopPage(x, AsInt(n - x)) else x
  }

  lemma {:induction false} AsIntBound(n: nat)
    ensures AsInt(n) <= n && -0x8000_0000 <= AsInt(n) < 0x8000_0000 && (n < 0x8000_0000 ==> AsInt(n) == n)
  {
  }

  lemma {:induction false} NoWrap(sz: nat)
    requires sz <= MAXVA
    ensures RoundedPages(sz) == PageCount(sz) <= VPN_LIMIT
  {
  }

  lemma {:induction false} OrdinaryStop(oldsz: nat, newsz: nat)
    requires newsz < oldsz <= MAXVA
    ensures RoundedPages(newsz) == PageCount(newsz) && DeallocStop(oldsz, newsz) == PageCount(oldsz)
  {
    NoWrap(oldsz);
    NoWrap(newsz);
    AsIntBound(PageCount(oldsz) - PageCount(newsz));
    PagesGrow(newsz, oldsz);
  }

  lemma {:induction false} PagesGrow(x: nat, y: nat)
    requires x <= y
    ensures PageCount(x) <= PageCount(y)
  {
  }

  /** A space has a root table, which is no user page. */
  lemma {:induction false} DenseBelow(mem: Memory, freelist: nat, lo: nat, a: Abstract, r: nat, n: nat)
    requires Inv(mem, freelist, lo, a) && Dense(a, r, n)
    ensures n < TRAPFRAME && n !in a.spaces[r].leaf
  {
    assert SpaceOk(mem, a.uses, r, a.spaces[r]) && NodeOk(mem, a.uses, r, a.spaces[r], 2, 0);
    BelowTrapframe(mem, freelist, lo, a, r, n, r);
  }

  lemma {:induction false} DenseMapped(a: Abstract, r: nat, n: nat, x: nat, y: nat)
    requires Dense(a, r, n) && x < TRAPFRAME && n < TRAPFRAME
    ensures HoleFrom(a, r, x) && (AllMapped(a, r, x, y) <==> y <= x || y <= n)
  {
    var h := if x < n then n else x;
    assert h !in a.spaces[r].leaf;
    if y <= n {
      forall v: nat | x <= v < y ensures v in a.spaces[r].leaf {
      }
    }
  }

  /** Shrinks a process with `n` pages; returns the new size.  `oldsz` may be anything, but
      the kernel panics exactly if there is a page to unmap that the process lacks. */
  method Uvmdealloc(k: PhysicalMemory, r: nat, oldsz: nat, newsz: nat, ghost n: nat) returns (sz: nat, panics: bool)
    requires k.Valid() && Dense(k.a, r, n) && oldsz < UINT64_LIMIT && newsz < UINT64_LIMIT
    requires newsz < oldsz ==> RoundedPages(newsz) < TRAPFRAME
    modifies k
    ensures k.Valid() && sz == (if newsz < oldsz then newsz else oldsz)
    ensures panics <==> RoundedPages(newsz) < DeallocStop(oldsz, newsz) && n < DeallocStop(oldsz, newsz)
    ensures oldsz <= MAXVA ==>
      (panics <==> newsz < oldsz && PageCount(newsz) < PageCount(oldsz) && n < PageCount(oldsz))
    ensures !panics ==>
      Shrunk(old(k.mem), k.mem, old(k.a), k.a, r, RoundedPages(newsz), DeallocStop(oldsz, newsz), true)
    ensures !panics && n <= DeallocStop(oldsz, newsz) ==>
      Dense(k.a, r, if RoundedPages(newsz) < n then RoundedPages(newsz) else n)
  {
    k.ShrunkSelf(k.mem, k.a, r, RoundedPages(newsz), true);
    if newsz >= oldsz {
      return oldsz, false;
    }
    if oldsz <= MAXVA {
      OrdinaryStop(oldsz, newsz);
    }
    var x, y := RoundedPages(newsz), RoundedPages(oldsz);
    sz, panics := newsz, false;
    if x < y {
      AsIntBound(y - x);
      panics := UnmapUpTo(k, r, x, StopPage(x, AsInt(y - x)), n);
    }
  }

  method UnmapUpTo(k: PhysicalMemory, r: nat, x: nat, stop: nat, ghost n: nat) returns (panics: bool)
    requires k.Valid() && Dense(k.a, r, n) && x < TRAPFRAME && x <= stop
    modifies k
    ensures k.Valid() && (panics <==> x < stop && n < stop)
    ensures !panics ==> Shrunk(old(k.mem), k.mem, old(k.a), k.a, r, x, stop, true)
    ensures !panics && n <= stop ==> Dense(k.a, r, if x < n then x else n)
  {
    DenseBelow(k.mem, k.freelist, k.lo, k.a, r, n);
    DenseMapped(k.a, r, n, x, stop);
    panics := k.Uvmunmap(r, x, stop - x, true);
    if !panics && x < stop && n == stop {
      DenseShrunk(old(k.mem), k.mem, old(k.a), k.a, r, n, x);
    } else if !panics && x == stop {
      forall v: nat | v < TRAPFRAME ensures v in k.a.spaces[r].leaf <==> v < n {
        assert v in old(k.a).spaces[r].leaf <==> v < n;
      }
    }
  }

  /** With the true size there is no panic. */
  lemma {:induction false} TrueSize(oldsz: nat, newsz: nat, n: nat)
    requires PageCount(oldsz) == n < TRAPFRAME && newsz < UINT64_LIMIT
    ensures oldsz < MAXVA < UINT64_LIMIT && (newsz < oldsz ==> RoundedPages(newsz) <= n)
    ensures newsz < oldsz ==> RoundedPages(newsz) == PageCount(newsz) && DeallocStop(oldsz, newsz) == n
    ensures newsz >= oldsz ==> DeallocStop(oldsz, newsz) == RoundedPages(newsz)
  {
    if newsz < oldsz {
      OrdinaryStop(oldsz, newsz);
    }
  }

  /** A process of one page, said to have two: the kernel panics. */
  method DeallocBeyond(k: PhysicalMemory, r: nat) returns (panics: bool)
    requires k.Valid() && Dense(k.a, r, 1)
    modifies k
    ensures panics
  {
    var _, p := Uvmdealloc(k, r, 2 * PGSIZE, 0, 1);
    panics := p;
  }

  /** Sizes 2^32 pages apart: the int is 0, and nothing is unmapped. */
  lemma {:induction false} CountTruncated()
    ensures DeallocStop(0x1000_0000_0000, 0) == RoundedPages(0) == 0
  {
  }

  /** Page `v` of space `r` holds `page`. */
  ghost predicate PageIs(mem: Memory, a: Abstract, r: nat, v: nat, page: Page, flags: nat) {
    && r in a.spaces && v in a.spaces[r].leaf && a.spaces[r].leaf[v].flags == flags
    && a.spaces[r].leaf[v].ppn < |mem| && mem[a.spaces[r].leaf[v].ppn] == page
  }

  /** User pages survive the growth of any space. */
  lemma {:induction false} PageIsKept(lo: nat, f: nat, m: Memory, m': Memory, a: Abstract, a': Abstract, r: nat,
      v: nat, page: Page, flags: nat, r2: nat, x: nat, y: nat)
    requires Inv(m, f, lo, a) && PageIs(m, a, r, v, page, flags) && v < TRAPFRAME && (r != r2 || !(x <= v < y))
    requires Grew(m, m', a, a', r2, x, y, {})
    ensures PageIs(m', a', r, v, page, flags)
  {
    assert SpaceOk(m, a.uses, r, a.spaces[r]) && LeafOk(a.uses, r, a.spaces[r], v);
    assert PageKept(m, m', a.spaces[r].leaf[v].ppn);
  }

  /** A new page at `v` holding `page`, or nothing but tables: kalloc, fill, mappages,
      and kfree if that fails. */
  method AllocPage(k: PhysicalMemory, r: nat, v: nat, page: Page, perm: nat) returns (ok: bool)
    requires k.Valid() && Dense(k.a, r, v) && perm < 1024 && FlagsOk(WithV(perm)) && page.Data?
    requires |page.bytes| == PGSIZE
    modifies k
    ensures k.Valid() && Dense(k.a, r, if ok then v + 1 else v)
    ensures ok ==> Grew(old(k.mem), k.mem, old(k.a), k.a, r, v, v + 1, {})
    ensures ok ==> PageIs(k.mem, k.a, r, v, page, WithV(perm))
    ensures !ok ==> Grew(old(k.mem), k.mem, old(k.a), k.a, r, v, v, {})
    ensures Bought(old(k.a), k.a, r, v, ok)
  {
    var p := k.KallocFilled(page);
    if p == 0 {
      GrewSame(k.mem, k.a, r, v);
      return false;
    }
    ghost var m2, a2 := k.mem, k.a;
    BelowTrapframe(k.mem, k.freelist, k.lo, k.a, r, v, p);
    ghost var n;
    assert Awaiting(k.mem, k.mem, k.a, r, v, p, 0);
    OneFrom(v);
    ok, n := k.Mappages(r, v * PGSIZE, PGSIZE, p, perm);
    PageBought(old(k.a), a2, k.a, r, v, ok);
    if !ok {
      GiveUp(k, r, v, p, page, WithV(perm), old(k.mem), m2, old(k.a), a2);
      DenseSame(old(k.mem), k.mem, old(k.a), k.a, r, v, v);
      return;
    }
    AllocMapped(old(k.mem), m2, k.mem, old(k.a), a2, k.a, r, v, p, page, WithV(perm));
    DenseGrew(old(k.mem), k.mem, old(k.a), k.a, r, v);
  }

  lemma {:induction false} OneFrom(v: nat)
    ensures v * PGSIZE / PGSIZE == v == (v * PGSIZE + PGSIZE - 1) / PGSIZE && Pages(v * PGSIZE, PGSIZE) == 1
  {
  }

  lemma {:induction false} GrewSame(m: Memory, a: Abstract, r: nat, v: nat)
    requires r in a.spaces && forall p: nat :: p in a.uses ==> p < |m|
    ensures Grew(m, m, a, a, r, v, v, {})
  {
    forall p: nat | p in a.uses ensures PageKept(m, m, p) {
    }
  }

  /** The page could not be mapped and goes back to the free list. */
  method GiveUp(k: PhysicalMemory, r: nat, v: nat, p: nat, ghost page: Page, ghost flags: nat, ghost m1: Memory,
      ghost m2: Memory, ghost a1: Abstract, ghost a2: Abstract)
    requires k.Valid() && MappedRange(m2, k.mem, a2, k.a, r, v, 0, p, flags)
    requires a1.free != [] && p == a1.free[|a1.free| - 1] && p in a1.uses && a1.uses[p].Free? && a2 == Popped(a1)
    requires p < |m1| && m2 == m1[p := page] && forall q: nat :: q in a1.uses ==> q < |m1|
    modifies k
    ensures k.Valid() && Grew(m1, k.mem, a1, k.a, r, v, v, {})
  {
    ghost var m3, a3 := k.mem, k.a;
    assert p in a2.uses.Keys && p in a3.uses;
    assert p < |m3| && m3[p := m3[p]] == m3;
    AllocUndone(m1, m2, m3, m3, a1, a2, a3, r, v, p, page, flags);
    k.GiveBack(p);
    AllocUndone(m1, m2, m3, k.mem, a1, a2, a3, r, v, p, page, flags);
  }

  /** Pages x .. y - 1 are zero and have these flags. */
  ghost predicate ZeroesFrom(mem: Memory, a: Abstract, r: nat, x: nat, y: nat, flags: nat) {
    forall v: nat :: x <= v < y ==> PageIs(mem, a, r, v, Filled(0), flags)
  }

  ghost predicate UserPerm(xperm: nat) {
    xperm in {0, PTE_W, PTE_X, PTE_W + PTE_X}
  }

  lemma {:induction false} UserFlags(xperm: nat)
    requires UserPerm(xperm)
    ensures PTE_R + PTE_U + xperm < 1024 && WithV(PTE_R + PTE_U + xperm) == PTE_V + PTE_R + PTE_U + xperm
    ensures FlagsOk(WithV(PTE_R + PTE_U + xperm))
  {
  }

  /** One turn of the loop in uvmalloc, which goes up to page `end`. */
  method GrowTurn(k: PhysicalMemory, r: nat, v: nat, xperm: nat, ghost x: nat, ghost end: nat, ghost m0: Memory,
      ghost a0: Abstract)
      returns (ok: bool)
    requires k.Valid() && Dense(k.a, r, v) && UserPerm(xperm) && x <= v < end && PaidFor(a0, k.a, r, x, v, v - x)
    requires Grew(m0, k.mem, a0, k.a, r, x, v, {}) && ZeroesFrom(k.mem, k.a, r, x, v, PTE_V + PTE_R + PTE_U + xperm)
    modifies k
    ensures k.Valid() && Dense(k.a, r, if ok then v + 1 else v)
    ensures ok ==> Grew(m0, k.mem, a0, k.a, r, x, v + 1, {})
    ensures ok ==> ZeroesFrom(k.mem, k.a, r, x, v + 1, PTE_V + PTE_R + PTE_U + xperm)
    ensures !ok ==> Grew(m0, k.mem, a0, k.a, r, x, v, {})
    ensures if ok then PaidFor(a0, k.a, r, x, v + 1, v + 1 - x) else !Affords(a0, r, x, end)
  {
    UserFlags(xperm);
    ghost var m1, a1, f1, flags := k.mem, k.a, k.freelist, PTE_V + PTE_R + PTE_U + xperm;
    ok := AllocPage(k, r, v, Filled(0), PTE_R + PTE_U + xperm);
    if ok {
      PaidNext(a0, a1, k.a, r, x, v, v - x, 1);
      GrewOn(m0, m1, k.mem, a0, a1, k.a, r, x, v, v + 1);
      ZeroesNext(k.lo, f1, m1, k.mem, a1, k.a, r, x, v, flags);
    } else {
      CannotGrow(a0, a1, r, x, v, end);
      GrewOn(m0, m1, k.mem, a0, a1, k.a, r, x, v, v);
    }
  }

  lemma {:induction false} ZeroesNext(lo: nat, f: nat, m: Memory, m': Memory, a: Abstract, a': Abstract, r: nat, x: nat,
      v: nat, flags: nat)
    requires Inv(m, f, lo, a) && ZeroesFrom(m, a, r, x, v, flags) && v <= TRAPFRAME
    requires Grew(m, m', a, a', r, v, v + 1, {}) && PageIs(m', a', r, v, Filled(0), flags)
    ensures ZeroesFrom(m', a', r, x, v + 1, flags)
  {
    forall w: nat | x <= w < v + 1 ensures PageIs(m', a', r, w, Filled(0), flags) {
      if w < v {
        PageIsKept(lo, f, m, m', a, a', r, w, Filled(0), flags, r, v, v + 1);
      }
    }
  }

  lemma {:induction false} GrewOn(m0: Memory, m1: Memory, m2: Memory, a0: Abstract, a1: Abstract, a2: Abstract,
      r: nat, x: nat, y: nat, z: nat)
    requires Grew(m0, m1, a0, a1, r, x, y, {}) && Grew(m1, m2, a1, a2, r, y, z, {}) && x <= y <= z
    ensures Grew(m0, m2, a0, a2, r, x, z, {})
  {
    var none: set<nat> := {};
    GrewTrans(m0, m1, m2, a0, a1, a2, r, x, y, z, none, none);
    assert none + none == none;
  }

  /** Grows a process from `oldsz` to `newsz`, with zeroed pages.  On failure, which
      returns 0, every page taken for the process goes back to the free list. */
  method Uvmalloc(k: PhysicalMemory, r: nat, oldsz: nat, newsz: nat, xperm: nat) returns (sz: nat, ghost ok: bool)
    requires k.Valid() && Dense(k.a, r, PageCount(oldsz)) && UserPerm(xperm)
    modifies k
    ensures k.Valid() && (newsz < oldsz ==> ok && sz == oldsz)
    ensures ok && newsz >= oldsz ==> sz == newsz
    ensures ok ==> Dense(k.a, r, PageCount(sz))
    ensures ok ==> Grew(old(k.mem), k.mem, old(k.a), k.a, r, PageCount(oldsz), PageCount(sz), {})
    ensures ok ==> ZeroesFrom(k.mem, k.a, r, PageCount(oldsz), PageCount(sz), PTE_V + PTE_R + PTE_U + xperm)
    ensures !ok ==> sz == 0 && Dense(k.a, r, PageCount(oldsz))
    ensures !ok ==> Grew(old(k.mem), k.mem, old(k.a), k.a, r, PageCount(oldsz), PageCount(oldsz), {})
    ensures newsz >= oldsz ==> (ok <==> Affords(old(k.a), r, PageCount(oldsz), PageCount(newsz)))
    ensures ok ==> PaidFor(old(k.a), k.a, r, PageCount(oldsz), PageCount(sz), PageCount(sz) - PageCount(oldsz))
  {
    GrewSame(k.mem, k.a, r, PageCount(oldsz));
    PaidNothing(k.a, r, PageCount(oldsz));
    if newsz < oldsz {
      return oldsz, true;
    }
    var start := PageCount(oldsz);
    var v := start;
    while v * PGSIZE < newsz
      invariant PaidFor(old(k.a), k.a, r, start, v, v - start)
      invariant k.Valid() && Dense(k.a, r, v) && start <= v && (v == start || (v - 1) * PGSIZE < newsz)
      invariant Grew(old(k.mem), k.mem, old(k.a), k.a, r, start, v, {})
      invariant ZeroesFrom(k.mem, k.a, r, start, v, PTE_V + PTE_R + PTE_U + xperm)
      decreases newsz - v * PGSIZE
    {
      var got := GrowTurn(k, r, v, xperm, start, PageCount(newsz), old(k.mem), old(k.a));
      if !got {
        Retreat(k, r, start, v, old(k.mem), old(k.a), old(k.freelist));
        return 0, false;
      }
      v := v + 1;
    }
    assert v == PageCount(newsz);
    CouldGrow(old(k.a), k.a, r, start, v);
    return newsz, true;
  }

  /** uvmdealloc back to where uvmalloc started. */
  method Retreat(k: PhysicalMemory, r: nat, start: nat, v: nat, ghost m0: Memory, ghost a0: Abstract, ghost f0: nat)
    requires k.Valid() && Inv(m0, f0, k.lo, a0) && Dense(a0, r, start) && start <= v && Dense(k.a, r, v)
    requires Grew(m0, k.mem, a0, k.a, r, start, v, {})
    modifies k
    ensures k.Valid() && Dense(k.a, r, start) && Grew(m0, k.mem, a0, k.a, r, start, start, {})
  {
    ghost var m1, a1 := k.mem, k.a;
    OneFrom(v);
    OneFrom(start);
    DenseUsers(m0, f0, k.lo, a0, r, start);
    DenseBelow(k.mem, k.freelist, k.lo, k.a, r, v);
    TrueSize(v * PGSIZE, start * PGSIZE, v);
    var _, panics := Uvmdealloc(k, r, v * PGSIZE, start * PGSIZE, v);
    assert !panics;
    GrewShrunk(m0, m1, k.mem, a0, a1, k.a, r, start, v);
  }

  // growproc

  /** sz + n in 64-bit unsigned arithmetic */
  function AddWrap(sz: nat, n: int): (r: nat)
    requires sz < UINT64_LIMIT
  {
    (sz + n) % UINT64_LIMIT
  }

  class Process {
    var pagetable: nat
    var sz: nat

    constructor (pagetable: nat)
      ensures this.pagetable == pagetable && sz == 0
    {
      this.pagetable := pagetable;
      sz := 0;
    }
  }

  /** What growing by `n` bytes has done, or failing to. */
  ghost predicate GrownBy(m: Memory, m': Memory, a: Abstract, a': Abstract, r: nat, sz: nat, sz': nat, n: nat,
      ok: bool) {
    && r in a.spaces && Dense(a', r, PageCount(sz')) && (ok <==> Affords(a, r, PageCount(sz), PageCount(sz + n)))
    && sz' == (if ok then sz + n else sz) && Grew(m, m', a, a', r, PageCount(sz), PageCount(sz'), {})
    && ZeroesFrom(m', a', r, PageCount(sz), PageCount(sz'), PTE_V + PTE_R + PTE_W + PTE_U)
  }

  /** sbrk: n bytes more or less; a process that would shrink below 0 keeps its size.  New memory is zero
      and can be read and written.  Growth fails exactly if there are not enough pages for it. */
  method Growproc(k: PhysicalMemory, p: Process, n: int) returns (r: int)
    requires k.Valid() && Dense(k.a, p.pagetable, PageCount(p.sz)) && -0x8000_0000 <= n < 0x8000_0000
    modifies k, p
    ensures k.Valid() && (r == 0 || r == -1) && p.pagetable == old(p.pagetable)
    ensures n > 0 ==> GrownBy(old(k.mem), k.mem, old(k.a), k.a, p.pagetable, old(p.sz), p.sz, n, r == 0)
    ensures n <= 0 ==> r == 0 && p.sz == (if old(p.sz) + n >= 0 then old(p.sz) + n else old(p.sz))
    ensures n <= 0 ==> Dense(k.a, p.pagetable, PageCount(p.sz))
    ensures n <= 0 ==>
      Shrunk(old(k.mem), k.mem, old(k.a), k.a, p.pagetable, PageCount(p.sz), PageCount(old(p.sz)), true)
  {
    var sz := p.sz;
    SizeBound(sz);
    k.ShrunkSelf(k.mem, k.a, p.pagetable, PageCount(sz), true);
    if n > 0 {
      ghost var ok;
      sz, ok := GrowBy(k, p.pagetable, sz, AddWrap(sz, n), n);
      if sz == 0 {
        return -1;
      }
    } else if n < 0 {
      sz := ShrinkTo(k, p.pagetable, sz, AddWrap(sz, n));
    }
    p.sz := sz;
    return 0;
  }

  /** The call of uvmalloc in it. */
  method GrowBy(k: PhysicalMemory, r: nat, sz: nat, newsz: nat, ghost n: nat) returns (sz1: nat, ghost ok: bool)
    requires k.Valid() && Dense(k.a, r, PageCount(sz)) && n > 0 && newsz == sz + n
    modifies k
    ensures k.Valid() && sz1 == (if ok then newsz else 0)
    ensures GrownBy(old(k.mem), k.mem, old(k.a), k.a, r, sz, if ok then newsz else sz, n, ok)
  {
    assert PageCount(sz + n) == PageCount(newsz);
    sz1, ok := Uvmalloc(k, r, sz, newsz, PTE_W);
  }

  /** The call of uvmdealloc. */
  method ShrinkTo(k: PhysicalMemory, r: nat, sz: nat, newsz: nat) returns (sz1: nat)
    requires k.Valid() && Dense(k.a, r, PageCount(sz)) && newsz < UINT64_LIMIT
    modifies k
    ensures k.Valid() && sz1 == (if newsz < sz then newsz else sz) && Dense(k.a, r, PageCount(sz1))
    ensures Shrunk(old(k.mem), k.mem, old(k.a), k.a, r, PageCount(sz1), PageCount(sz), true)
  {
    var panics;
    SizeBound(sz);
    DenseBelow(k.mem, k.freelist, k.lo, k.a, r, PageCount(sz));
    TrueSize(sz, newsz, PageCount(sz));
    k.ShrunkSelf(k.mem, k.a, r, PageCount(sz), true);
    sz1, panics := Uvmdealloc(k, r, sz, newsz, PageCount(sz));
    assert !panics;
  }

  lemma {:induction false} SizeBound(sz: nat)
    requires PageCount(sz) <= TRAPFRAME
    ensures sz <= TRAPFRAME * PGSIZE
    ensures forall n: int ::
      -0x8000_0000 <= n < 0x8000_0000 ==> AddWrap(sz, n) == if sz + n >= 0 then sz + n else sz + n + UINT64_LIMIT
  {
  }

  // uvmcopy

  /** Page `v` of the two spaces has the same contents and flags, on different pages
      of memory. */
  ghost predicate SamePage(mem: Memory, a: Abstract, r: nat, c: nat, v: nat) {
    && r in a.spaces && c in a.spaces && v in a.spaces[r].leaf && v in a.spaces[c].leaf
    && var e, f := a.spaces[r].leaf[v], a.spaces[c].leaf[v];
       e.flags == f.flags && e.ppn != f.ppn && e.ppn < |mem| && f.ppn < |mem| && mem[f.ppn] == mem[e.ppn]
  }

  ghost predicate Copied(mem: Memory, a: Abstract, r: nat, c: nat, n: nat) {
    forall v: nat :: v < n ==> SamePage(mem, a, r, c, v)
  }

  lemma {:induction false} SamePageKept(lo: nat, f: nat, m: Memory, m': Memory, a: Abstract, a': Abstract, r: nat,
      c: nat, v: nat, x: nat, y: nat)
    requires Inv(m, f, lo, a) && SamePage(m, a, r, c, v) && v < x && v < TRAPFRAME && r != c
    requires Grew(m, m', a, a', c, x, y, {})
    ensures SamePage(m', a', r, c, v)
  {
    assert SpaceOk(m, a.uses, r, a.spaces[r]) && LeafOk(a.uses, r, a.spaces[r], v);
    assert SpaceOk(m, a.uses, c, a.spaces[c]) && LeafOk(a.uses, c, a.spaces[c], v);
    assert PageKept(m, m', a.spaces[r].leaf[v].ppn) && PageKept(m, m', a.spaces[c].leaf[v].ppn);
  }

  /** One turn of the loop in uvmcopy. */
  method CopyPage(k: PhysicalMemory, r: nat, c: nat, n: nat, v: nat) returns (ok: bool)
    requires k.Valid() && r != c && Dense(k.a, r, n) && v < n && Dense(k.a, c, v)
    modifies k
    ensures k.Valid() && Dense(k.a, r, n) && Dense(k.a, c, if ok then v + 1 else v)
    ensures ok ==> Grew(old(k.mem), k.mem, old(k.a), k.a, c, v, v + 1, {}) && SamePage(k.mem, k.a, r, c, v)
    ensures !ok ==> Grew(old(k.mem), k.mem, old(k.a), k.a, c, v, v, {})
    ensures Bought(old(k.a), k.a, c, v, ok)
  {
    var t := k.Walk(r, v);
    k.MappedEntry(r, v, t);
    assert t != 0;
    var pte := k.mem[t].pte[v % 512];
    assert IsValid(pte);
    var pa, flags := PpnOf(pte), FlagsOf(pte);
    UserPageData(k.mem, k.freelist, k.lo, k.a, r, v);
    ghost var page := k.mem[pa];
    ok := AllocPage(k, c, v, k.mem[pa], flags);
    if ok {
      PageIsKept(k.lo, old(k.freelist), old(k.mem), k.mem, old(k.a), k.a, r, v, page, flags, c, v, v + 1);
      UserPageData(k.mem, k.freelist, k.lo, k.a, r, v);
      UserPageData(k.mem, k.freelist, k.lo, k.a, c, v);
    }
  }

  lemma {:induction false} UserPageData(mem: Memory, f: nat, lo: nat, a: Abstract, r: nat, v: nat)
    requires Inv(mem, f, lo, a) && r in a.spaces && v in a.spaces[r].leaf && v < TRAPFRAME
    ensures FlagsOk(a.spaces[r].leaf[v].flags)
    ensures var p := a.spaces[r].leaf[v].ppn;
      && p in a.uses
      && a.uses[p] == User(r, v)
      && p < |mem|
      && mem[p].Data?
      && |mem[p].bytes| == PGSIZE
  {
    assert SpaceOk(mem, a.uses, r, a.spaces[r]) && LeafOk(a.uses, r, a.spaces[r], v);
    assert UseOk(mem, a, a.spaces[r].leaf[v].ppn);
  }

  method CopyTurn(k: PhysicalMemory, r: nat, c: nat, n: nat, v: nat, ghost m0: Memory, ghost a0: Abstract)
      returns (ok: bool)
    requires k.Valid() && r != c && Dense(k.a, r, n) && v < n && Dense(k.a, c, v)
    requires Grew(m0, k.mem, a0, k.a, c, 0, v, {}) && Copied(k.mem, k.a, r, c, v) && PaidFor(a0, k.a, c, 0, v, v)
    modifies k
    ensures k.Valid() && Dense(k.a, r, n) && Dense(k.a, c, if ok then v + 1 else v)
    ensures if ok then PaidFor(a0, k.a, c, 0, v + 1, v + 1) else !Affords(a0, c, 0, n)
    ensures Grew(m0, k.mem, a0, k.a, c, 0, if ok then v + 1 else v, {}) && (ok ==> Copied(k.mem, k.a, r, c, v + 1))
  {
    ghost var m1, a1, f1 := k.mem, k.a, k.freelist;
    ok := CopyPage(k, r, c, n, v);
    if ok {
      PaidNext(a0, a1, k.a, c, 0, v, v, 1);
      GrewOn(m0, m1, k.mem, a0, a1, k.a, c, 0, v, v + 1);
      forall w: nat | w < v + 1 ensures SamePage(k.mem, k.a, r, c, w) {
        if w < v {
          SamePageKept(k.lo, f1, m1, k.mem, a1, k.a, r, c, w, v, v + 1);
        }
      }
    } else {
      CannotGrow(a0, a1, c, 0, v, n);
      GrewOn(m0, m1, k.mem, a0, a1, k.a, c, 0, v, v);
    }
  }

  /** Copies the memory of space `r`, `sz` bytes, into space `c`, which has no user
      pages.  It fails exactly if there are not enough pages for that, and `c` has none again. */
  method Uvmcopy(k: PhysicalMemory, r: nat, c: nat, sz: nat) returns (res: int)
    requires k.Valid() && r != c && Dense(k.a, r, PageCount(sz)) && Dense(k.a, c, 0)
    modifies k
    ensures k.Valid() && (res == 0 || res == -1) && Dense(k.a, r, PageCount(sz))
    ensures res == 0 <==> Affords(old(k.a), c, 0, PageCount(sz))
    ensures res == 0 ==> Dense(k.a, c, PageCount(sz)) && Copied(k.mem, k.a, r, c, PageCount(sz))
    ensures res == 0 ==> Grew(old(k.mem), k.mem, old(k.a), k.a, c, 0, PageCount(sz), {})
    ensures res == -1 ==> Dense(k.a, c, 0) && Grew(old(k.mem), k.mem, old(k.a), k.a, c, 0, 0, {})
  {
    GrewSame(k.mem, k.a, c, 0);
    PaidNothing(k.a, c, 0);
    var v := 0;
    while v * PGSIZE < sz
      invariant PaidFor(old(k.a), k.a, c, 0, v, v)
      invariant v <= PageCount(sz) && k.Valid() && Dense(k.a, r, PageCount(sz)) && Dense(k.a, c, v)
      invariant Grew(old(k.mem), k.mem, old(k.a), k.a, c, 0, v, {}) && Copied(k.mem, k.a, r, c, v)
      decreases sz - v * PGSIZE
    {
      var ok := CopyTurn(k, r, c, PageCount(sz), v, old(k.mem), old(k.a));
      if !ok {
        CopyFailed(k, r, c, PageCount(sz), v, old(k.mem), old(k.a), old(k.freelist));
        return -1;
      }
      v := v + 1;
    }
    CouldGrow(old(k.a), k.a, c, 0, v);
    return 0;
  }

  method CopyFailed(k: PhysicalMemory, r: nat, c: nat, ghost n: nat, v: nat, ghost m0: Memory, ghost a0: Abstract,
      ghost f0: nat)
    requires k.Valid() && Inv(m0, f0, k.lo, a0) && Dense(a0, c, 0) && Dense(k.a, c, v) && r != c && Dense(k.a, r, n)
    requires Grew(m0, k.mem, a0, k.a, c, 0, v, {})
    modifies k
    ensures k.Valid() && Dense(k.a, c, 0) && Dense(k.a, r, n) && Grew(m0, k.mem, a0, k.a, c, 0, 0, {})
  {
    ghost var m1, a1 := k.mem, k.a;
    var panics := k.Uvmunmap(c, 0, v, true);
    assert !panics;
    DenseUsers(m0, f0, k.lo, a0, c, 0);
    DenseShrunk(m1, k.mem, a1, k.a, c, v, 0);
    GrewShrunk(m0, m1, k.mem, a0, a1, k.a, c, 0, v);
  }
}
