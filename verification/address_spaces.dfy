/** Creation and destruction of address spaces (uvmcreate, freewalk and uvmfree in
    kernel/vm.c, proc_pagetable and proc_freepagetable in kernel/proc.c). */
module AddressSpaces {
  import opened PageTables
  import opened Vm
  import opened UserMemory

  // Subtrees

  /** The prefix `n` levels up. */
  ghost function Up(k: nat, n: nat): nat {
    if n == 0 then k else Up(k, n - 1) / 512
  }

  lemma {:induction false} UpParent(k: nat, n: nat)
    ensures Up(k / 512, n) == Up(k, n + 1)
  {
    if n > 0 {
      UpParent(k, n - 1);
    }
  }

  /** Node `x` lies in the subtree of (l, k). */
  ghost predicate Under(l: nat, k: nat, x: (nat, nat)) {
    x.0 <= l && Up(x.1, l - x.0) == k
  }

  /** The entry, in a node at level `l`, that leads to `x`. */
  ghost function Way(l: nat, x: (nat, nat)): nat
    requires x.0 < l
  {
    Up(x.1, l - 1 - x.0) % 512
  }

  lemma {:induction false} UnderChild(l: nat, k: nat, x: (nat, nat), i: nat)
    requires l > 0 && i < ENTRIES
    ensures Under(l - 1, k * 512 + i, x) <==> x.0 < l && Under(l, k, x) && Way(l, x) == i
  {
    if x.0 < l {
      var c := Up(x.1, l - 1 - x.0);
      assert Up(x.1, l - x.0) == c / 512;
    }
  }

  /** The shape that freewalk relies on. */
  ghost predicate TreeOk(sp: Space) {
    && (forall x, y :: x in sp.node && y in sp.node && sp.node[x] == sp.node[y] ==> x == y)
    && (forall l: nat, k: nat {:trigger Parented(sp, l, k)} :: (l, k) in sp.node ==> Parented(sp, l, k))
  }

  ghost predicate Parented(sp: Space, l: nat, k: nat) {
    l <= 2 && (l < 2 ==> (l + 1, k / 512) in sp.node)
  }

  lemma {:induction false} TopIn(sp: Space, l: nat, k: nat, x: (nat, nat))
    requires TreeOk(sp) && x in sp.node && Under(l, k, x) && l <= 2
    ensures (l, k) in sp.node
    decreases l - x.0
  {
    if x.0 < l {
      assert Parented(sp, x.0, x.1);
      UpParent(x.1, l - x.0 - 1);
      TopIn(sp, l, k, (x.0 + 1, x.1 / 512));
    }
  }

  ghost function Subtree(sp: Space, l: nat, k: nat): set<nat> {
    set x | x in sp.node && Under(l, k, x) :: sp.node[x]
  }

  /** The subtrees below the first `i` entries of (l, k). */
  ghost function Passed(sp: Space, l: nat, k: nat, i: nat): set<nat> {
    set x | x in sp.node && x.0 < l && Under(l, k, x) && Way(l, x) < i :: sp.node[x]
  }

  lemma {:induction false} PassedNext(sp: Space, l: nat, k: nat, i: nat)
    requires 0 < l <= 2 && i < ENTRIES && TreeOk(sp)
    ensures Passed(sp, l, k, i + 1) == Passed(sp, l, k, i) + Subtree(sp, l - 1, k * 512 + i)
    ensures (l - 1, k * 512 + i) !in sp.node ==> Subtree(sp, l - 1, k * 512 + i) == {}
  {
    forall x | x in sp.node ensures Under(l - 1, k * 512 + i, x) <==> x.0 < l && Under(l, k, x) && Way(l, x) == i {
      UnderChild(l, k, x, i);
    }
    forall x | x in sp.node && Under(l - 1, k * 512 + i, x) ensures (l - 1, k * 512 + i) in sp.node {
      TopIn(sp, l - 1, k * 512 + i, x);
    }
  }

  lemma {:induction false} PassedAll(sp: Space, l: nat, k: nat)
    requires (l, k) in sp.node && l <= 2
    ensures Subtree(sp, l, k) == Passed(sp, l, k, ENTRIES) + {sp.node[(l, k)]}
  {
    assert Under(l, k, (l, k));
    forall x | x in sp.node && Under(l, k, x) ensures x == (l, k) || (x.0 < l && Way(l, x) < ENTRIES) {
      assert x.0 == l ==> Up(x.1, 0) == k;
    }
  }

  // freewalk

  ghost predicate IntactNode(mem: Memory, a: Abstract, sp: Space, x: (nat, nat))
    requires x in sp.node
  {
    sp.node[x] in a.uses && a.uses[sp.node[x]] == Other && TableOk(mem, sp, x.0, x.1, sp.node[x])
  }

  ghost predicate Intact(mem: Memory, a: Abstract, sp: Space, l: nat, k: nat) {
    forall x {:trigger IntactNode(mem, a, sp, x)} :: x in sp.node && Under(l, k, x) ==> IntactNode(mem, a, sp, x)
  }

  /** The pages in `s` have become free; no other page has changed, but for the
      contents of page `e`. */
  ghost predicate Released(m: Memory, m': Memory, a: Abstract, a': Abstract, s: set<nat>, e: nat) {
    && a'.spaces == a.spaces && a'.uses.Keys == a.uses.Keys
    && (forall p: nat {:trigger a'.uses[p]} ::
           p in a.uses ==> if p in s then a'.uses[p].Free? else a'.uses[p] == a.uses[p])
    && (forall p: nat {:trigger PageKept(m, m', p)} ::
           p in a.uses && p !in s && p != e && Held(a.uses[p]) ==> PageKept(m, m', p))
  }

  lemma {:induction false} ReleasedMore(m0: Memory, m1: Memory, m2: Memory, a0: Abstract, a1: Abstract, a2: Abstract,
      s: set<nat>, t: set<nat>, e: nat)
    requires Released(m0, m1, a0, a1, s, e) && Released(m1, m2, a1, a2, t, e) && s !! t
    ensures Released(m0, m2, a0, a2, s + t, e)
  {
    forall p: nat | p in a0.uses && p !in s + t && p != e && Held(a0.uses[p]) ensures PageKept(m0, m2, p) {
      assert PageKept(m0, m1, p) && PageKept(m1, m2, p);
    }
    forall p: nat | p in a0.uses ensures if p in s + t then a2.uses[p].Free? else a2.uses[p] == a0.uses[p] {
      assert a1.uses[p] == a1.uses[p];
    }
  }

  lemma {:induction false} IntactKept(m: Memory, m': Memory, a: Abstract, a': Abstract, sp: Space, s: set<nat>,
      e: nat, x: (nat, nat))
    requires x in sp.node && IntactNode(m, a, sp, x) && Released(m, m', a, a', s, e) && sp.node[x] !in s
    requires sp.node[x] != e
    ensures IntactNode(m', a', sp, x)
  {
    var p := sp.node[x];
    assert PageKept(m, m', p) && a'.uses[p] == a.uses[p];
    TableFrame(m, m', sp, x.0, x.1, p);
  }

  /** Freewalk on node (l, k) has dealt with its first `i` entries. */
  ghost predicate HalfFreed(mem: Memory, a: Abstract, sp: Space, l: nat, k: nat, p: nat, i: nat) {
    && p in a.uses && a.uses[p] == Other && p < |mem| && mem[p].Table? && |mem[p].pte| == ENTRIES
    && (forall j: nat :: i <= j < ENTRIES ==> EntryOk(mem, sp, l, k, p, j))
    && (forall x {:trigger IntactNode(mem, a, sp, x)} ::
           x in sp.node && x.0 < l && Under(l, k, x) && Way(l, x) >= i ==> IntactNode(mem, a, sp, x))
  }

  lemma {:induction false} StartFreeing(mem: Memory, a: Abstract, sp: Space, l: nat, k: nat, p: nat)
    requires (l, k) in sp.node && p == sp.node[(l, k)] && Intact(mem, a, sp, l, k)
    ensures HalfFreed(mem, a, sp, l, k, p, 0)
  {
    assert Under(l, k, (l, k));
    assert IntactNode(mem, a, sp, (l, k));
  }

  /** (pte & (PTE_R|PTE_W|PTE_X)) == 0 */
  predicate NotLeaf(pte: nat) {
    pte / 2 % 8 == 0
  }

  lemma {:induction false} BranchPte(p: nat)
    ensures IsValid(Pte(p, PTE_V)) && NotLeaf(Pte(p, PTE_V)) && PpnOf(Pte(p, PTE_V)) == p
  {
    assert (p * 1024 + 1) / 2 == p * 512;
  }

  /** What the next entry says: a child, whose subtree is intact, or nothing. */
  lemma {:induction false} NextEntry(mem: Memory, a: Abstract, sp: Space, l: nat, k: nat, p: nat, i: nat)
    requires HalfFreed(mem, a, sp, l, k, p, i) && i < ENTRIES && sp.leaf == map[] && l <= 2 && TreeOk(sp)
    ensures var pte := mem[p].pte[i];
      if l > 0 && (l - 1, k * 512 + i) in sp.node
      then
        && IsValid(pte) && NotLeaf(pte) && PpnOf(pte) == sp.node[(l - 1, k * 512 + i)]
        && Intact(mem, a, sp, l - 1, k * 512 + i)
      else !IsValid(pte)
  {
    assert EntryOk(mem, sp, l, k, p, i);
    if l > 0 && (l - 1, k * 512 + i) in sp.node {
      BranchPte(sp.node[(l - 1, k * 512 + i)]);
      forall x | x in sp.node && Under(l - 1, k * 512 + i, x) ensures IntactNode(mem, a, sp, x) {
        UnderChild(l, k, x, i);
      }
    }
  }

  /** Releasing the subtree below entry `i`, and clearing that entry. */
  lemma {:induction false} EntryFreed(m0: Memory, m1: Memory, m2: Memory, m3: Memory, a0: Abstract, a1: Abstract,
      a2: Abstract, sp: Space, l: nat, k: nat, p: nat, i: nat, q: nat)
    requires TreeOk(sp) && 0 < l <= 2 && i < ENTRIES && (l, k) in sp.node && p == sp.node[(l, k)]
    requires HalfFreed(m1, a1, sp, l, k, p, i) && Released(m0, m1, a0, a1, Passed(sp, l, k, i), p)
    requires Released(m1, m2, a1, a2, Subtree(sp, l - 1, k * 512 + i), q) && q in Subtree(sp, l - 1, k * 512 + i)
    requires |m2| == |m3| && p < |m2| && m2[p].Table? && |m2[p].pte| == ENTRIES && m3 == PteSet(m2, p, i, 0)
    ensures Released(m0, m3, a0, a2, Passed(sp, l, k, i + 1), p) && HalfFreed(m3, a2, sp, l, k, p, i + 1)
  {
    PassedNext(sp, l, k, i);
    Apart(sp, l, k, i);
    var sub := Subtree(sp, l - 1, k * 512 + i);
    assert p !in sub && a2.uses[p] == a1.uses[p];
    assert Released(m1, m3, a1, a2, sub, p) by {
      forall r: nat | r in a1.uses && r !in sub && r != p && Held(a1.uses[r]) ensures PageKept(m1, m3, r) {
        assert PageKept(m1, m2, r);
      }
    }
    ReleasedMore(m0, m1, m3, a0, a1, a2, Passed(sp, l, k, i), sub, p);
    assert PageKept(m1, m2, p);
    forall j: nat | i + 1 <= j < ENTRIES ensures EntryOk(m3, sp, l, k, p, j) {
      assert EntryOk(m1, sp, l, k, p, j);
    }
    forall x | x in sp.node && x.0 < l && Under(l, k, x) && Way(l, x) >= i + 1 ensures IntactNode(m3, a2, sp, x) {
      UnderChild(l, k, x, i);
      assert IntactNode(m1, a1, sp, x);
      IntactKept(m1, m3, a1, a2, sp, sub, p, x);
    }
  }

  lemma {:induction false} Apart(sp: Space, l: nat, k: nat, i: nat)
    requires TreeOk(sp) && 0 < l <= 2 && i < ENTRIES && (l, k) in sp.node
    ensures Passed(sp, l, k, i) !! Subtree(sp, l - 1, k * 512 + i)
    ensures sp.node[(l, k)] !in Subtree(sp, l - 1, k * 512 + i)
    ensures sp.node[(l, k)] !in Passed(sp, l, k, i)
  {
    forall x | x in sp.node ensures Under(l - 1, k * 512 + i, x) <==> x.0 < l && Under(l, k, x) && Way(l, x) == i {
      UnderChild(l, k, x, i);
    }
  }

  /** An empty entry is passed over. */
  lemma {:induction false} EntryPassed(m0: Memory, m1: Memory, a0: Abstract, a1: Abstract, sp: Space, l: nat, k: nat,
      p: nat, i: nat)
    requires TreeOk(sp) && l <= 2 && i < ENTRIES && !(l > 0 && (l - 1, k * 512 + i) in sp.node)
    requires HalfFreed(m1, a1, sp, l, k, p, i) && Released(m0, m1, a0, a1, Passed(sp, l, k, i), p)
    ensures Released(m0, m1, a0, a1, Passed(sp, l, k, i + 1), p) && HalfFreed(m1, a1, sp, l, k, p, i + 1)
  {
    if l > 0 {
      PassedNext(sp, l, k, i);
    }
    assert Passed(sp, l, k, i + 1) == Passed(sp, l, k, i);
  }

  /** Recursively frees page-table pages; every mapping must have been removed. */
  method Freewalk(k: PhysicalMemory, p: nat, ghost sp: Space, ghost l: nat, ghost at: nat)
    requires k.Valid() && TreeOk(sp) && sp.leaf == map[] && l <= 2 && (l, at) in sp.node && p == sp.node[(l, at)]
    requires Intact(k.mem, k.a, sp, l, at)
    modifies k
    ensures k.Valid() && Released(old(k.mem), k.mem, old(k.a), k.a, Subtree(sp, l, at), p)
    decreases l, 1
  {
    StartFreeing(k.mem, k.a, sp, l, at, p);
    ReleasedNone(k.mem, k.a, sp, l, at, p);
    var i := 0;
    while i < ENTRIES
      invariant i <= ENTRIES && k.Valid()
      invariant Released(old(k.mem), k.mem, old(k.a), k.a, Passed(sp, l, at, i), p)
      invariant HalfFreed(k.mem, k.a, sp, l, at, p, i)
    {
      FreeEntry(k, p, i, sp, l, at, old(k.mem), old(k.a));
      i := i + 1;
    }
    ghost var m1, a1 := k.mem, k.a;
    k.GiveBack(p);
    LastFreed(old(k.mem), m1, k.mem, old(k.a), a1, k.a, sp, l, at, p);
  }

  method FreeEntry(k: PhysicalMemory, p: nat, i: nat, ghost sp: Space, ghost l: nat, ghost at: nat, ghost m0: Memory,
      ghost a0: Abstract)
    requires k.Valid() && TreeOk(sp) && sp.leaf == map[] && l <= 2 && (l, at) in sp.node && p == sp.node[(l, at)]
    requires i < ENTRIES
    requires Released(m0, k.mem, a0, k.a, Passed(sp, l, at, i), p) && HalfFreed(k.mem, k.a, sp, l, at, p, i)
    modifies k
    ensures k.Valid()
    ensures Released(m0, k.mem, a0, k.a, Passed(sp, l, at, i + 1), p) && HalfFreed(k.mem, k.a, sp, l, at, p, i + 1)
    decreases l, 0
  {
    NextEntry(k.mem, k.a, sp, l, at, p, i);
    var pte := k.mem[p].pte[i];
    if IsValid(pte) && NotLeaf(pte) {
      ghost var m1, a1 := k.mem, k.a;
      Freewalk(k, PpnOf(pte), sp, l - 1, at * 512 + i);
      ghost var m2, a2 := k.mem, k.a;
      OwnPage(m1, m2, a1, a2, sp, l, at, p, i, PpnOf(pte));
      WriteInv(k.mem, k.freelist, k.lo, k.a, p, Table(k.mem[p].pte[i := 0]));
      k.mem := PteSet(k.mem, p, i, 0);
      EntryFreed(m0, m1, m2, k.mem, a0, a1, a2, sp, l, at, p, i, PpnOf(pte));
    } else {
      assert !IsValid(pte);  // or else a leaf
      EntryPassed(m0, k.mem, a0, k.a, sp, l, at, p, i);
    }
  }

  lemma {:induction false} OwnPage(m1: Memory, m2: Memory, a1: Abstract, a2: Abstract, sp: Space, l: nat, k: nat,
      p: nat, i: nat, q: nat)
    requires TreeOk(sp) && 0 < l <= 2 && i < ENTRIES && (l, k) in sp.node && p == sp.node[(l, k)]
    requires (l - 1, k * 512 + i) in sp.node && q == sp.node[(l - 1, k * 512 + i)]
    requires HalfFreed(m1, a1, sp, l, k, p, i) && Released(m1, m2, a1, a2, Subtree(sp, l - 1, k * 512 + i), q)
    ensures PageKept(m1, m2, p) && p in a2.uses && a2.uses[p] == Other && q in Subtree(sp, l - 1, k * 512 + i)
  {
    Apart(sp, l, k, i);
    assert Under(l - 1, k * 512 + i, (l - 1, k * 512 + i));
    assert a2.uses[p] == a1.uses[p];
    assert PageKept(m1, m2, p);
  }

  lemma {:induction false} ReleasedNone(m: Memory, a: Abstract, sp: Space, l: nat, k: nat, p: nat)
    requires forall q: nat :: q in a.uses ==> q < |m|
    ensures Released(m, m, a, a, Passed(sp, l, k, 0), p)
  {
    assert Passed(sp, l, k, 0) == {};
    forall q: nat | q in a.uses ensures PageKept(m, m, q) {
    }
  }

  lemma {:induction false} LastFreed(m0: Memory, m1: Memory, m2: Memory, a0: Abstract, a1: Abstract, a2: Abstract,
      sp: Space, l: nat, k: nat, p: nat)
    requires l <= 2 && (l, k) in sp.node && p == sp.node[(l, k)] && p in a0.uses
    requires Released(m0, m1, a0, a1, Passed(sp, l, k, ENTRIES), p) && a2 == Pushed(a1, p)
    requires p < |m1| == |m2| && m2 == m1[p := m2[p]]
    ensures Released(m0, m2, a0, a2, Subtree(sp, l, k), p)
  {
    PassedAll(sp, l, k);
    forall q: nat | q in a0.uses && q !in Subtree(sp, l, k) && q != p && Held(a0.uses[q]) ensures PageKept(m0, m2, q) {
      assert PageKept(m0, m1, q);
    }
    forall q: nat | q in a0.uses ensures if q in Subtree(sp, l, k) then a2.uses[q].Free? else a2.uses[q] == a0.uses[q] {
      assert a1.uses[q] == a1.uses[q];
    }
  }

  // uvmfree

  ghost predicate NodeOf(u: Use, r: nat) {
    u.Node? && u.root == r
  }

  /** The space is given up: its tables become pages in the hands of the kernel. */
  ghost function Detached(a: Abstract, r: nat): Abstract {
    a.(uses := map p | p in a.uses :: if NodeOf(a.uses[p], r) then Other else a.uses[p], spaces := a.spaces - {r})
  }

  lemma {:induction false} DetachInv(mem: Memory, f: nat, lo: nat, a: Abstract, r: nat)
    requires Inv(mem, f, lo, a) && r in a.spaces && a.spaces[r].leaf == map[]
    ensures Inv(mem, f, lo, Detached(a, r))
  {
    var a' := Detached(a, r);
    forall i: nat | i < |a'.free| ensures FreeAt(mem, a', i) {
      assert FreeAt(mem, a, i);
    }
    forall p: nat | p in a'.uses ensures p < |mem| && UseOk(mem, a', p) {
      assert UseOk(mem, a, p);
    }
    forall r2 | r2 in a'.spaces ensures SpaceOk(mem, a'.uses, r2, a'.spaces[r2]) {
      assert SpaceOk(mem, a.uses, r2, a.spaces[r2]);
      SpaceFrame(mem, mem, a.uses, a'.uses, r2, a.spaces[r2]);
    }
  }

  lemma {:induction false} DetachTree(mem: Memory, f: nat, lo: nat, a: Abstract, r: nat)
    requires Inv(mem, f, lo, a) && r in a.spaces
    ensures TreeOk(a.spaces[r]) && (2, 0) in a.spaces[r].node && a.spaces[r].node[(2, 0)] == r
    ensures Intact(mem, Detached(a, r), a.spaces[r], 2, 0)
    ensures forall p: nat :: p in a.uses ==> (p in Subtree(a.spaces[r], 2, 0) <==> NodeOf(a.uses[p], r))
  {
    var sp, a' := a.spaces[r], Detached(a, r);
    assert SpaceOk(mem, a.uses, r, sp);
    forall x | x in sp.node
      ensures IntactNode(mem, a', sp, x) && Parented(sp, x.0, x.1)
      ensures a.uses[sp.node[x]] == Node(r, x.0, x.1) && Under(2, 0, x)
    {
      assert NodeOk(mem, a.uses, r, sp, x.0, x.1);
      RootedTree(mem, a.uses, r, sp, x);
    }
    forall p: nat | p in a.uses ensures p in Subtree(sp, 2, 0) <==> NodeOf(a.uses[p], r) {
      assert UseOk(mem, a, p);
    }
  }

  lemma {:induction false} RootedTree(mem: Memory, uses: map<nat, Use>, r: nat, sp: Space, x: (nat, nat))
    requires SpaceOk(mem, uses, r, sp) && x in sp.node
    ensures x.0 <= 2 && Under(2, 0, x)
    decreases 2 - x.0
  {
    assert NodeOk(mem, uses, r, sp, x.0, x.1);
    if x.0 < 2 {
      RootedTree(mem, uses, r, sp, (x.0 + 1, x.1 / 512));
      UpParent(x.1, 1 - x.0);
    }
  }

  /** Space `r` is gone and its tables and user pages are free; nothing else has
      changed. */
  ghost predicate Dissolved(m: Memory, m': Memory, a: Abstract, a': Abstract, r: nat) {
    && r in a.spaces && a'.spaces == a.spaces - {r} && a'.uses.Keys == a.uses.Keys
    && (forall p: nat {:trigger a'.uses[p]} ::
           p in a.uses ==> if StructureOf(a.uses[p], r) then a'.uses[p].Free? else a'.uses[p] == a.uses[p])
    && (forall p: nat {:trigger PageKept(m, m', p)} ::
           p in a.uses && Held(a.uses[p]) && !StructureOf(a.uses[p], r) ==> PageKept(m, m', p))
  }

  /** Frees the user pages and then the tables of a space that maps nothing else. */
  method Uvmfree(k: PhysicalMemory, r: nat, sz: nat)
    requires k.Valid() && Dense(k.a, r, PageCount(sz)) && forall v: nat :: v in k.a.spaces[r].leaf ==> v < TRAPFRAME
    modifies k
    ensures k.Valid() && Dissolved(old(k.mem), k.mem, old(k.a), k.a, r)
  {
    k.ShrunkSelf(k.mem, k.a, r, 0, true);
    if sz > 0 {
      var panics := k.Uvmunmap(r, 0, PageCount(sz), true);
      assert !panics;
    }
    ghost var m1, a1 := k.mem, k.a;
    NothingMapped(old(k.mem), m1, old(k.a), a1, r, PageCount(sz));
    FreeTables(k, r);
    Dissolve(k.lo, old(k.freelist), old(k.mem), m1, k.mem, old(k.a), a1, k.a, r, PageCount(sz));
  }

  lemma {:induction false} NothingMapped(m: Memory, m': Memory, a: Abstract, a': Abstract, r: nat, n: nat)
    requires Dense(a, r, n) && Shrunk(m, m', a, a', r, 0, n, true)
    requires forall v: nat ::
      v in a.spaces[r].leaf ==> v < TRAPFRAME
    ensures a'.spaces[r].leaf == map[]
  {
    forall v: nat ensures v !in a'.spaces[r].leaf {
      assert v in a.spaces[r].leaf ==> v < TRAPFRAME;
    }
  }

  /** freewalk from the root. */
  method FreeTables(k: PhysicalMemory, r: nat)
    requires k.Valid() && r in k.a.spaces && k.a.spaces[r].leaf == map[]
    modifies k
    ensures k.Valid() && TablesFreed(old(k.mem), k.mem, old(k.a), k.a, r)
  {
    DetachInv(k.mem, k.freelist, k.lo, k.a, r);
    DetachTree(k.mem, k.freelist, k.lo, k.a, r);
    ghost var sp := k.a.spaces[r];
    k.a := Detached(k.a, r);
    ghost var a1 := k.a;
    Freewalk(k, r, sp, 2, 0);
    TablesGone(old(k.mem), k.mem, old(k.a), a1, k.a, r);
  }

  ghost predicate TablesFreed(m: Memory, m': Memory, a: Abstract, a': Abstract, r: nat) {
    && r in a.spaces && a'.spaces == a.spaces - {r} && a'.uses.Keys == a.uses.Keys
    && (forall p: nat {:trigger a'.uses[p]} ::
           p in a.uses ==> if NodeOf(a.uses[p], r) then a'.uses[p].Free? else a'.uses[p] == a.uses[p])
    && (forall p: nat {:trigger PageKept(m, m', p)} :: p in a.uses && Held(a.uses[p]) ==> PageKept(m, m', p))
  }

  lemma {:induction false} TablesGone(m: Memory, m': Memory, a: Abstract, a1: Abstract, a': Abstract, r: nat)
    requires r in a.spaces && a1 == Detached(a, r) && Released(m, m', a1, a', Subtree(a.spaces[r], 2, 0), r)
    requires r in Subtree(a.spaces[r], 2, 0)
    requires forall p: nat :: p in a.uses ==> (p in Subtree(a.spaces[r], 2, 0) <==> NodeOf(a.uses[p], r))
    ensures TablesFreed(m, m', a, a', r)
  {
    forall p: nat | p in a.uses ensures if NodeOf(a.uses[p], r) then a'.uses[p].Free? else a'.uses[p] == a.uses[p] {
      assert p in a1.uses;
    }
    forall p: nat | p in a.uses && Held(a.uses[p]) ensures PageKept(m, m', p) {
      assert p in a1.uses && a1.uses[p] == a.uses[p];
    }
  }

  lemma {:induction false} Dissolve(lo: nat, f: nat, m0: Memory, m1: Memory, m2: Memory, a0: Abstract, a1: Abstract,
      a2: Abstract, r: nat, n: nat)
    requires Inv(m0, f, lo, a0) && Dense(a0, r, n) && Shrunk(m0, m1, a0, a1, r, 0, n, true)
    requires TablesFreed(m1, m2, a1, a2, r)
    ensures Dissolved(m0, m2, a0, a2, r)
  {
    DenseUsers(m0, f, lo, a0, r, n);
    assert a2.spaces == a0.spaces - {r};
    forall p: nat | p in a0.uses
      ensures if StructureOf(a0.uses[p], r) then a2.uses[p].Free? else a2.uses[p] == a0.uses[p]
    {
      assert PageShrunk(a0.uses[p], a1.uses[p], r, 0, n, true);
      assert a2.uses[p] == a2.uses[p];
    }
    forall p: nat | p in a0.uses && Held(a0.uses[p]) && !StructureOf(a0.uses[p], r) ensures PageKept(m0, m2, p) {
      assert PageShrunk(a0.uses[p], a1.uses[p], r, 0, n, true);
      assert PageKept(m0, m1, p) && PageKept(m1, m2, p);
    }
  }

  // proc_pagetable

  ghost function WithSpace(a: Abstract, r: nat): Abstract {
    a.(uses := a.uses[r := Node(r, 2, 0)], spaces := a.spaces[r := Space(map[(2, 0) := r], map[])])
  }

  lemma {:induction false} NewSpaceInv(mem: Memory, f: nat, lo: nat, a: Abstract, r: nat)
    requires Inv(mem, f, lo, a) && r in a.uses && a.uses[r] == Other && r < |mem| && mem[r] == ZeroTable()
    ensures r !in a.spaces && Inv(mem, f, lo, WithSpace(a, r))
  {
    var a' := WithSpace(a, r);
    assert r in a.spaces ==> SpaceOk(mem, a.uses, r, a.spaces[r]) && NodeOk(mem, a.uses, r, a.spaces[r], 2, 0);
    forall i: nat | i < |a'.free| ensures FreeAt(mem, a', i) {
      assert FreeAt(mem, a, i);
    }
    forall p: nat | p in a'.uses ensures p < |mem| && UseOk(mem, a', p) {
      assert UseOk(mem, a, p);
    }
    NewSpaceOk(mem, a'.uses, r);
    forall r2 | r2 in a'.spaces ensures SpaceOk(mem, a'.uses, r2, a'.spaces[r2]) {
      if r2 != r {
        assert SpaceOk(mem, a.uses, r2, a.spaces[r2]);
        SpaceFrame(mem, mem, a.uses, a'.uses, r2, a.spaces[r2]);
      }
    }
  }

  lemma {:induction false} NewSpaceOk(mem: Memory, uses: map<nat, Use>, r: nat)
    requires r in uses && uses[r] == Node(r, 2, 0) && r < |mem| && mem[r] == ZeroTable()
    ensures SpaceOk(mem, uses, r, Space(map[(2, 0) := r], map[]))
  {
    var sp := Space(map[(2, 0) := r], map[]);
    forall j: nat | j < ENTRIES ensures EntryOk(mem, sp, 2, 0, r, j) {
    }
    assert NodeOk(mem, uses, r, sp, 2, 0);
  }

  /** There is a new space `r`, its tables and its `n` user pages made of free pages;
      no page in use has changed. */
  ghost predicate Created(m: Memory, m': Memory, a: Abstract, a': Abstract, r: nat, n: nat) {
    && a'.uses.Keys == a.uses.Keys
    && (forall p: nat {:trigger a'.uses[p]} :: p in a.uses ==> PageGrew(a.uses[p], a'.uses[p], r, 0, n))
    && (forall p: nat {:trigger PageKept(m, m', p)} :: p in a.uses && Held(a.uses[p]) ==> PageKept(m, m', p))
    && r !in a.spaces && a'.spaces.Keys == a.spaces.Keys + {r}
    && forall r2 ::
      r2 in a.spaces ==> a'.spaces[r2] == a.spaces[r2]
  }

  /** Nothing has changed, but for the order of the free list. */
  ghost predicate Restored(m: Memory, m': Memory, a: Abstract, a': Abstract) {
    && a'.spaces == a.spaces && a'.uses.Keys == a.uses.Keys
    && (forall p: nat {:trigger a'.uses[p]} ::
           p in a.uses ==> a'.uses[p] == a.uses[p] || (a.uses[p].Free? && a'.uses[p].Free?))
    && (forall p: nat {:trigger PageKept(m, m', p)} :: p in a.uses && Held(a.uses[p]) ==> PageKept(m, m', p))
  }

  lemma {:induction false} CreatedGrew(lo: nat, f: nat, m0: Memory, m1: Memory, m2: Memory, a0: Abstract,
      a1: Abstract, a2: Abstract, r: nat, x: nat, y: nat)
    requires Created(m0, m1, a0, a1, r, 0) && Grew(m1, m2, a1, a2, r, x, y, {}) && Inv(m2, f, lo, a2) && x >= TRAPFRAME
    ensures Created(m0, m2, a0, a2, r, 0)
  {
    forall p: nat | p in a0.uses ensures PageGrew(a0.uses[p], a2.uses[p], r, 0, 0) {
      assert PageGrew(a0.uses[p], a1.uses[p], r, 0, 0) && PageGrew(a1.uses[p], a2.uses[p], r, x, y);
      assert UseOk(m2, a2, p);
    }
    forall p: nat | p in a0.uses && Held(a0.uses[p]) ensures PageKept(m0, m2, p) {
      assert PageGrew(a0.uses[p], a1.uses[p], r, 0, 0);
      assert PageKept(m0, m1, p) && PageKept(m1, m2, p);
    }
  }

  lemma {:induction false} CreatedDissolved(lo: nat, f: nat, m0: Memory, m1: Memory, m2: Memory, a0: Abstract,
      a1: Abstract, a2: Abstract, r: nat, n: nat)
    requires Created(m0, m1, a0, a1, r, n) && Dissolved(m1, m2, a1, a2, r) && Inv(m0, f, lo, a0)
    ensures Restored(m0, m2, a0, a2)
  {
    forall p: nat | p in a0.uses ensures a2.uses[p] == a0.uses[p] || (a0.uses[p].Free? && a2.uses[p].Free?) {
      assert PageGrew(a0.uses[p], a1.uses[p], r, 0, n) && UseOk(m0, a0, p);
      assert a2.uses[p] == a2.uses[p];
    }
    forall p: nat | p in a0.uses && Held(a0.uses[p]) ensures PageKept(m0, m2, p) {
      assert PageGrew(a0.uses[p], a1.uses[p], r, 0, n) && UseOk(m0, a0, p);
      assert PageKept(m0, m1, p) && PageKept(m1, m2, p);
    }
    assert a2.spaces == a0.spaces;
  }

  method Uvmcreate(k: PhysicalMemory) returns (r: nat)
    requires k.Valid()
    modifies k
    ensures k.Valid() && (r == 0 ==> Restored(old(k.mem), k.mem, old(k.a), k.a))
    ensures r != 0 ==> Created(old(k.mem), k.mem, old(k.a), k.a, r, 0) && k.a.spaces[r].leaf == map[]
    ensures r == 0 <==> old(k.a).free == []
    ensures r != 0 ==> |k.a.free| + 1 == |old(k.a).free| && NodesOf(k.a, r) == {(2, 0)}
  {
    r := k.KallocFilled(ZeroTable());
    if r == 0 {
      KeptSelf(k.mem, k.a);
      return;
    }
    NewSpaceInv(k.mem, k.freelist, k.lo, k.a, r);
    k.a := WithSpace(k.a, r);
    forall p: nat | p in old(k.a).uses && Held(old(k.a).uses[p]) ensures PageKept(old(k.mem), k.mem, p) {
    }
  }

  lemma {:induction false} KeptSelf(m: Memory, a: Abstract)
    requires forall p: nat :: p in a.uses ==> p < |m|
    ensures Restored(m, m, a, a)
  {
    forall p: nat | p in a.uses ensures PageKept(m, m, p) {
    }
  }

  /** One of the two pages at the top of an address space. */
  method MapTop(k: PhysicalMemory, r: nat, v: nat, ppn: nat, perm: nat, ghost m0: Memory, ghost a0: Abstract)
      returns (ok: bool)
    requires k.Valid() && TRAPFRAME <= v < VPN_LIMIT && Created(m0, k.mem, a0, k.a, r, 0) && v !in k.a.spaces[r].leaf
    requires perm < 1024 && FlagsOk(WithV(perm))
    modifies k
    ensures k.Valid() && Created(m0, k.mem, a0, k.a, r, 0)
    ensures k.a.spaces[r].leaf ==
      if ok then old(k.a).spaces[r].leaf[v := Leaf(ppn, WithV(perm))] else old(k.a).spaces[r].leaf
    ensures Charged(old(k.a), k.a, r, v, ok)
  {
    ghost var m1, a1 := k.mem, k.a;
    OneFrom(v);
    assert Awaiting(k.mem, k.mem, k.a, r, v, ppn, 0);
    ghost var n;
    ok, n := k.Mappages(r, v * PGSIZE, PGSIZE, ppn, perm);
    TopMapped(k, r, v, ppn, WithV(perm), n, m0, m1, a0, a1);
  }

  lemma {:induction false} TopMapped(k: PhysicalMemory, r: nat, v: nat, ppn: nat, flags: nat, n: nat, m0: Memory,
      m1: Memory, a0: Abstract, a1: Abstract)
    requires k.Valid() && v >= TRAPFRAME && n <= 1 && MappedRange(m1, k.mem, a1, k.a, r, v, n, ppn, flags)
    requires Created(m0, m1, a0, a1, r, 0) && v !in a1.spaces[r].leaf
    ensures Created(m0, k.mem, a0, k.a, r, 0)
    ensures k.a.spaces[r].leaf == if n == 1 then a1.spaces[r].leaf[v := Leaf(ppn, flags)] else a1.spaces[r].leaf
  {
    TopPages(ppn, v, n);
    CreatedGrew(k.lo, k.freelist, m0, m1, k.mem, a0, a1, k.a, r, v, v + n);
    assert n == 1 ==> MappedAt(m1, k.mem, k.a, r, v, ppn, flags, 0);
  }

  lemma {:induction false} TopPages(ppn: nat, v: nat, n: nat)
    requires v >= TRAPFRAME && n <= 1
    ensures UserPages(ppn, v, n) == {}
  {
    OnePage(ppn, v);
    assert UserPages(ppn, v, 0) == {};
  }

  /** The tables of an address space that maps the two pages at the top only. */
  ghost function TopNodes(): set<(nat, nat)> {
    {(2, 0)} + Path(TRAPFRAME)
  }

  /** Both pages at the top are in the same table, which takes two new ones. */
  lemma {:induction false} TopPath()
    ensures Path(TRAMPOLINE) == Path(TRAPFRAME) && |Path(TRAPFRAME) - {(2, 0)}| == 2 && |TopNodes()| == 3
  {
    assert Prefix(0, TRAMPOLINE) == Prefix(0, TRAPFRAME) && Prefix(1, TRAMPOLINE) == Prefix(1, TRAPFRAME);
    var low, high := (0, Prefix(0, TRAPFRAME)), (1, Prefix(1, TRAPFRAME));
    assert Path(TRAPFRAME) == {low, high} && Path(TRAPFRAME) - {(2, 0)} == {low, high};
    assert TopNodes() == {(2, 0), low, high};
  }

  lemma {:induction false} TopPaid(a1: Abstract, a2: Abstract, r: nat, ok: bool)
    requires r in a1.spaces && NodesOf(a1, r) == {(2, 0)} && Charged(a1, a2, r, TRAMPOLINE, ok)
    ensures ok <==> |a1.free| >= 2
    ensures ok ==> |a1.free| == |a2.free| + 2 && NodesOf(a2, r) == TopNodes()
  {
    TopPath();
    AddsSet(a1, a2, r, Path(TRAMPOLINE));
    if ok {
      assert NodesOf(a2, r) - NodesOf(a1, r) == Path(TRAPFRAME) - {(2, 0)};
    }
  }

  lemma {:induction false} SecondFree(a2: Abstract, a3: Abstract, r: nat, ok: bool)
    requires r in a2.spaces && NodesOf(a2, r) == TopNodes() && Charged(a2, a3, r, TRAPFRAME, ok)
    ensures ok && |a3.free| == |a2.free| && NodesOf(a3, r) == TopNodes()
  {
    AddsSet(a2, a3, r, Path(TRAPFRAME));
    assert Path(TRAPFRAME) - NodesOf(a2, r) == {};
    assert NodesOf(a3, r) - NodesOf(a2, r) == {};
  }

  /** An address space with the trampoline and the trapframe page and no user pages.  It takes three
      pages; with fewer nothing has changed. */
  method ProcPagetable(k: PhysicalMemory, trampoline: nat, trapframe: nat) returns (r: nat)
    requires k.Valid()
    modifies k
    ensures k.Valid() && (r == 0 ==> Restored(old(k.mem), k.mem, old(k.a), k.a))
    ensures r != 0 <==> |old(k.a).free| >= 3
    ensures r != 0 ==> Created(old(k.mem), k.mem, old(k.a), k.a, r, 0) && Dense(k.a, r, 0)
    ensures r != 0 ==> |k.a.free| + 3 == |old(k.a).free| && NodesOf(k.a, r) == TopNodes()
    ensures r != 0 ==>
      k.a.spaces[r].leaf ==
        map[TRAMPOLINE := Leaf(trampoline, PTE_V + PTE_R + PTE_X), TRAPFRAME := Leaf(trapframe, PTE_V + PTE_R + PTE_W)]
  {
    r := Uvmcreate(k);
    if r == 0 {
      return;
    }
    ghost var a1 := k.a;
    var ok := MapTop(k, r, TRAMPOLINE, trampoline, PTE_R + PTE_X, old(k.mem), old(k.a));
    TopPaid(a1, k.a, r, ok);
    if !ok {
      Abandon(k, r, old(k.mem), old(k.a), old(k.freelist));
      return 0;
    }
    ghost var a2 := k.a;
    ok := MapTop(k, r, TRAPFRAME, trapframe, PTE_R + PTE_W, old(k.mem), old(k.a));
    SecondFree(a2, k.a, r, ok);
    assert ok;     // it needs no table that is not there, so the source's second failure path is dead
  }

  /** The failure path of proc_pagetable. */
  method Abandon(k: PhysicalMemory, r: nat, ghost m0: Memory, ghost a0: Abstract, ghost f0: nat)
    requires k.Valid() && Created(m0, k.mem, a0, k.a, r, 0) && Inv(m0, f0, k.lo, a0) && k.a.spaces[r].leaf == map[]
    modifies k
    ensures k.Valid() && Restored(m0, k.mem, a0, k.a)
  {
    ghost var m1, a1 := k.mem, k.a;
    assert Dense(k.a, r, 0) && forall v: nat :: v in k.a.spaces[r].leaf ==> v < TRAPFRAME;
    Uvmfree(k, r, 0);
    CreatedDissolved(k.lo, f0, m0, m1, k.mem, a0, a1, k.a, r, 0);
  }

  // proc_freepagetable

  /** Every page has the use it had, and no space but `r` has changed. */
  ghost predicate UsesKept(m: Memory, m': Memory, a: Abstract, a': Abstract, r: nat) {
    && SpacesKept(a, a', r) && a'.uses == a.uses
    && (forall p: nat {:trigger PageKept(m, m', p)} :: p in a.uses && Held(a.uses[p]) ==> PageKept(m, m', p))
  }

  lemma {:induction false} TopUnmapped(lo: nat, f: nat, m: Memory, m': Memory, a: Abstract, a': Abstract, r: nat,
      v: nat, n: nat)
    requires Inv(m, f, lo, a) && Shrunk(m, m', a, a', r, v, v + 1, false) && v >= TRAPFRAME && Dense(a, r, n)
    ensures UsesKept(m, m', a, a', r) && Dense(a', r, n)
  {
    forall p: nat | p in a.uses ensures a'.uses[p] == a.uses[p] {
      assert PageShrunk(a.uses[p], a'.uses[p], r, v, v + 1, false) && UseOk(m, a, p);
    }
    assert a'.uses == a.uses;
    forall w: nat | w < TRAPFRAME ensures w in a'.spaces[r].leaf <==> w < n {
      assert w in a.spaces[r].leaf <==> w < n;
    }
  }

  lemma {:induction false} UsesKeptMore(m0: Memory, m1: Memory, m2: Memory, a0: Abstract, a1: Abstract, a2: Abstract,
      r: nat)
    requires UsesKept(m0, m1, a0, a1, r) && UsesKept(m1, m2, a1, a2, r)
    ensures UsesKept(m0, m2, a0, a2, r)
  {
    forall p: nat | p in a0.uses && Held(a0.uses[p]) ensures PageKept(m0, m2, p) {
      assert PageKept(m0, m1, p) && PageKept(m1, m2, p);
    }
  }

  lemma {:induction false} KeptDissolved(m0: Memory, m1: Memory, m2: Memory, a0: Abstract, a1: Abstract, a2: Abstract,
      r: nat)
    requires UsesKept(m0, m1, a0, a1, r) && Dissolved(m1, m2, a1, a2, r)
    ensures Dissolved(m0, m2, a0, a2, r)
  {
    assert a2.spaces == a0.spaces - {r};
    forall p: nat | p in a0.uses && Held(a0.uses[p]) && !StructureOf(a0.uses[p], r) ensures PageKept(m0, m2, p) {
      assert PageKept(m0, m1, p) && PageKept(m1, m2, p);
    }
  }

  method UnmapTop(k: PhysicalMemory, r: nat, v: nat, ghost n: nat)
    requires k.Valid() && Dense(k.a, r, n) && TRAPFRAME <= v < VPN_LIMIT && v in k.a.spaces[r].leaf
    modifies k
    ensures k.Valid() && Dense(k.a, r, n) && UsesKept(old(k.mem), k.mem, old(k.a), k.a, r)
    ensures forall w: nat :: w in k.a.spaces[r].leaf <==> w in old(k.a).spaces[r].leaf && w != v
  {
    var panics := k.Uvmunmap(r, v, 1, false);
    assert !panics;
    TopUnmapped(k.lo, old(k.freelist), old(k.mem), k.mem, old(k.a), k.a, r, v, n);
  }

  /** Frees an address space: its user pages and its tables, not the trampoline or the
      trapframe page. */
  method ProcFreePagetable(k: PhysicalMemory, r: nat, sz: nat)
    requires k.Valid() && Dense(k.a, r, PageCount(sz)) && TRAMPOLINE in k.a.spaces[r].leaf
    requires TRAPFRAME in k.a.spaces[r].leaf
    modifies k
    ensures k.Valid() && Dissolved(old(k.mem), k.mem, old(k.a), k.a, r)
  {
    UnmapTop(k, r, TRAMPOLINE, PageCount(sz));
    ghost var m1, a1 := k.mem, k.a;
    UnmapTop(k, r, TRAPFRAME, PageCount(sz));
    UsesKeptMore(old(k.mem), m1, k.mem, old(k.a), a1, k.a, r);
    ghost var m2, a2 := k.mem, k.a;
    OnlyUserLeft(k.mem, k.freelist, k.lo, k.a, r);
    Uvmfree(k, r, sz);
    KeptDissolved(old(k.mem), m2, k.mem, old(k.a), a2, k.a, r);
  }

  lemma {:induction false} OnlyUserLeft(mem: Memory, f: nat, lo: nat, a: Abstract, r: nat)
    requires Inv(mem, f, lo, a) && r in a.spaces && TRAMPOLINE !in a.spaces[r].leaf && TRAPFRAME !in a.spaces[r].leaf
    ensures forall v: nat :: v in a.spaces[r].leaf ==> v < TRAPFRAME
  {
    forall v: nat | v in a.spaces[r].leaf ensures v < TRAPFRAME {
      assert SpaceOk(mem, a.uses, r, a.spaces[r]) && LeafOk(a.uses, r, a.spaces[r], v);
    }
  }
}
