/** The memory side of exec (kernel/exec.c): building a new image beside the old one,
    and giving everything back when that fails. */
module Exec {
  import opened Common
  import opened Blocks
  import opened PageTables
  import opened Vm
  import opened UserMemory
  import opened UserCopy
  import opened AddressSpaces

  /** A program header, if the file is long enough to hold it, with what the file holds
      from its offset on. */
  datatype Segment = Segment(found: bool, load: bool, vaddr: nat, memsz: nat, filesz: nat, flags: nat, data: seq<byte>)

  function Flags2Perm(flags: nat): (perm: nat)
    ensures UserPerm(perm)
  {
    (if flags % 2 == 1 then PTE_X else 0) + (if flags / 2 % 2 == 1 then PTE_W else 0)
  }

  /** The bits of a page-table entry for a page of a segment with the ELF flags `elf`: valid, readable and
      for users; executable and writable as the segment says; and nothing else. */
  predicate SegFlags(flags: nat, elf: nat) {
    && flags < 32 && flags % 2 == 1 && flags / 2 % 2 == 1 && flags / 16 % 2 == 1
    && (flags / 8 % 2 == 1 <==> elf % 2 == 1) && (flags / 4 % 2 == 1 <==> elf / 2 % 2 == 1)
  }

  lemma {:induction false} SegBits(elf: nat)
    ensures SegFlags(PTE_V + PTE_R + PTE_U + Flags2Perm(elf), elf)
  {
  }

  ghost predicate TopsOk(a: Abstract, r: nat) {
    && r in a.spaces && TRAMPOLINE in a.spaces[r].leaf && TRAPFRAME in a.spaces[r].leaf
    && !HasU(a.spaces[r].leaf[TRAMPOLINE].flags) && !HasU(a.spaces[r].leaf[TRAPFRAME].flags)
  }

  ghost predicate ProcessOk(k: PhysicalMemory, p: Process)
    reads k, p
  {
    k.Valid() && Dense(k.a, p.pagetable, PageCount(p.sz)) && TopsOk(k.a, p.pagetable)
  }

  /** Pages x .. y - 1 are open to user access. */
  ghost predicate OpenPages(a: Abstract, r: nat, x: nat, y: nat) {
    forall v: nat :: x <= v < y ==> Accessible(a, r, v)
  }

  /** A space of `sz` bytes, `r`, has been built from free pages since `m0` and `a0`. */
  ghost predicate Partial(mem: Memory, a: Abstract, r: nat, sz: nat, m0: Memory, a0: Abstract) {
    Created(m0, mem, a0, a, r, PageCount(sz)) && Dense(a, r, PageCount(sz)) && TopsOk(a, r)
  }

  /** The pages of such a space are all open to the user. */
  ghost predicate Loading(mem: Memory, a: Abstract, r: nat, sz: nat, m0: Memory, a0: Abstract) {
    Partial(mem, a, r, sz, m0, a0) && OpenPages(a, r, 0, PageCount(sz))
  }

  lemma {:induction false} TopsClosed(mem: Memory, f: nat, lo: nat, a: Abstract, r: nat)
    requires Inv(mem, f, lo, a) && TopsOk(a, r)
    ensures UserOnly(a, r)
  {
    forall v: nat | Accessible(a, r, v) ensures v < TRAPFRAME {
      assert SpaceOk(mem, a.uses, r, a.spaces[r]) && LeafOk(a.uses, r, a.spaces[r], v);
    }
  }

  lemma {:induction false} CreatedMore(m0: Memory, m1: Memory, m2: Memory, a0: Abstract, a1: Abstract, a2: Abstract,
      r: nat, x: nat, y: nat)
    requires Created(m0, m1, a0, a1, r, x) && Grew(m1, m2, a1, a2, r, x, y, {}) && x <= y
    ensures Created(m0, m2, a0, a2, r, y)
  {
    forall p: nat | p in a0.uses ensures PageGrew(a0.uses[p], a2.uses[p], r, 0, y) {
      assert PageGrew(a0.uses[p], a1.uses[p], r, 0, x) && PageGrew(a1.uses[p], a2.uses[p], r, x, y);
    }
    forall p: nat | p in a0.uses && Held(a0.uses[p]) ensures PageKept(m0, m2, p) {
      assert PageGrew(a0.uses[p], a1.uses[p], r, 0, x);
      assert PageKept(m0, m1, p) && PageKept(m1, m2, p);
    }
  }

  lemma {:induction false} CreatedWrote(lo: nat, f0: nat, m0: Memory, m1: Memory, m2: Memory, a0: Abstract,
      a1: Abstract, r: nat, n: nat, va: nat, src: seq<byte>)
    requires Inv(m0, f0, lo, a0) && Created(m0, m1, a0, a1, r, n) && Wrote(m1, m2, a1, r, va, src)
    ensures Created(m0, m2, a0, a1, r, n)
  {
    forall p: nat | p in a0.uses && Held(a0.uses[p]) ensures PageKept(m0, m2, p) {
      assert PageGrew(a0.uses[p], a1.uses[p], r, 0, n) && UseOk(m0, a0, p);
      assert PageKept(m0, m1, p) && m2[p] == m1[p];
    }
  }

  lemma {:induction false} LoadingGrew(m0: Memory, m1: Memory, m2: Memory, a0: Abstract, a1: Abstract, a2: Abstract,
      r: nat, sz: nat, sz1: nat, flags: nat)
    requires Loading(m1, a1, r, sz, m0, a0) && Grew(m1, m2, a1, a2, r, PageCount(sz), PageCount(sz1), {}) && sz <= sz1
    requires Dense(a2, r, PageCount(sz1)) && ZeroesFrom(m2, a2, r, PageCount(sz), PageCount(sz1), flags) && HasU(flags)
    ensures Loading(m2, a2, r, sz1, m0, a0)
  {
    CreatedMore(m0, m1, m2, a0, a1, a2, r, PageCount(sz), PageCount(sz1));
    assert TRAMPOLINE in a2.spaces[r].leaf && TRAPFRAME in a2.spaces[r].leaf;
    forall v: nat | v < PageCount(sz1) ensures Accessible(a2, r, v) {
      if v < PageCount(sz) {
        assert Accessible(a1, r, v);
        assert v in a2.spaces[r].leaf;
      } else {
        assert PageIs(m2, a2, r, v, Filled(0), flags);
      }
    }
  }

  lemma {:induction false} LoadingFailed(m0: Memory, m1: Memory, m2: Memory, a0: Abstract, a1: Abstract, a2: Abstract,
      r: nat, sz: nat)
    requires Loading(m1, a1, r, sz, m0, a0) && Grew(m1, m2, a1, a2, r, PageCount(sz), PageCount(sz), {})
    requires Dense(a2, r, PageCount(sz))
    ensures Loading(m2, a2, r, sz, m0, a0)
  {
    CreatedMore(m0, m1, m2, a0, a1, a2, r, PageCount(sz), PageCount(sz));
    assert TRAMPOLINE in a2.spaces[r].leaf && TRAPFRAME in a2.spaces[r].leaf;
    forall v: nat | v < PageCount(sz) ensures Accessible(a2, r, v) {
      assert Accessible(a1, r, v);
      assert v in a2.spaces[r].leaf;
    }
  }

  // Contents

  function Zeros(n: nat): (s: seq<byte>)
    ensures |s| == n && forall i :: 0 <= i < n ==> s[i] == 0
  {
    seq(n, _ => 0)
  }

  /** `s`, made up to `n` bytes with zeros. */
  function Padded(s: seq<byte>, n: nat): (t: seq<byte>)
    ensures |t| == if n > |s| then n else |s|
  {
    if n > |s| then s + Zeros(n - |s|) else s
  }

  /** `src` over `s`, from byte `at` on. */
  function Over(s: seq<byte>, at: nat, src: seq<byte>): (t: seq<byte>)
    requires at + |src| <= |s|
    ensures |t| == |s|
    ensures forall i :: 0 <= i < |s| ==> t[i] == if at <= i < at + |src| then src[i - at] else s[i]
  {
    s[..at] + src + s[at + |src|..]
  }

  /** The open bytes from 0 on, `sz` of them rounded up to whole pages, are `b`. */
  ghost predicate ImageIs(mem: Memory, a: Abstract, r: nat, sz: nat, b: seq<byte>) {
    |b| == PageCount(sz) * PGSIZE && Reads(mem, a, r, 0, b)
  }

  /** Growing a space leaves the bytes of its other pages as they are. */
  lemma {:induction false} ReadsGrew(m: Memory, m': Memory, a: Abstract, a': Abstract, r: nat, x: nat, y: nat,
      va: nat, s: seq<byte>)
    requires Grew(m, m', a, a', r, x, y, {}) && Reads(m, a, r, va, s) && va + |s| <= x * PGSIZE
    ensures Reads(m', a', r, va, s)
  {
    forall i: nat | i < |s| ensures ReadsByte(m', a', r, va, i, s[i]) {
      assert ReadsByte(m, a, r, va, i, s[i]);
      var v := (va + i) / PGSIZE;
      var p := a.spaces[r].leaf[v].ppn;
      assert v < x && v in a'.spaces[r].leaf;
      assert PageGrew(a.uses[p], a'.uses[p], r, x, y) && PageKept(m, m', p);
    }
  }

  lemma {:induction false} ReadsZeros(k: PhysicalMemory, r: nat, x: nat, y: nat, flags: nat)
    requires k.Valid() && UserOnly(k.a, r) && ZeroesFrom(k.mem, k.a, r, x, y, flags) && HasU(flags) && x <= y
    ensures Reads(k.mem, k.a, r, x * PGSIZE, Zeros((y - x) * PGSIZE))
  {
    var s := Zeros((y - x) * PGSIZE);
    forall i: nat | i < |s| ensures ReadsByte(k.mem, k.a, r, x * PGSIZE, i, s[i]) {
      var v := (x * PGSIZE + i) / PGSIZE;
      assert x <= v < y;
      assert PageIs(k.mem, k.a, r, v, Filled(0), flags);
      AccessibleReady(k, r, v);
    }
  }

  lemma {:induction false} ReadsBoth(mem: Memory, a: Abstract, r: nat, va: nat, s: seq<byte>, at: nat, t: seq<byte>)
    requires Reads(mem, a, r, va, s) && Reads(mem, a, r, at, t) && at == va + |s|
    ensures Reads(mem, a, r, va, s + t)
  {
    forall i: nat | i < |s + t| ensures ReadsByte(mem, a, r, va, i, (s + t)[i]) {
      if i < |s| {
        assert ReadsByte(mem, a, r, va, i, s[i]);
      } else {
        assert ReadsByte(mem, a, r, at, i - |s|, t[i - |s|]);
      }
    }
  }

  /** A write leaves the bytes before and behind it as they are. */
  lemma {:induction false} ReadsApart(m: Memory, m': Memory, a: Abstract, r: nat, va: nat, src: seq<byte>, at: nat,
      s: seq<byte>)
    requires Wrote(m, m', a, r, va, src) && Reads(m, a, r, at, s) && (at + |s| <= va || va + |src| <= at)
    ensures Reads(m', a, r, at, s)
  {
    forall i: nat | i < |s| ensures ReadsByte(m', a, r, at, i, s[i]) {
      assert ReadsByte(m, a, r, at, i, s[i]);
      WroteElsewhere(m, m', a, r, va, src, r, at + i);
    }
  }

  lemma {:induction false} ReadsOver(m: Memory, m': Memory, a: Abstract, r: nat, va: nat, src: seq<byte>, s: seq<byte>)
    requires Wrote(m, m', a, r, va, src) && Reads(m, a, r, 0, s) && Reads(m', a, r, va, src) && va + |src| <= |s|
    ensures Reads(m', a, r, 0, Over(s, va, src))
  {
    var t := Over(s, va, src);
    forall i: nat | i < |t| ensures ReadsByte(m', a, r, 0, i, t[i]) {
      if va <= i < va + |src| {
        assert ReadsByte(m', a, r, va, i - va, src[i - va]);
      } else {
        assert ReadsByte(m, a, r, 0, i, s[i]);
        WroteElsewhere(m, m', a, r, va, src, r, i);
      }
    }
  }

  lemma {:induction false} ImageGrew(k: PhysicalMemory, r: nat, m: Memory, a: Abstract, sz: nat, sz1: nat, flags: nat,
      b: seq<byte>)
    requires k.Valid() && UserOnly(k.a, r) && ImageIs(m, a, r, sz, b) && sz <= sz1
    requires Grew(m, k.mem, a, k.a, r, PageCount(sz), PageCount(sz1), {}) && HasU(flags)
    requires ZeroesFrom(k.mem, k.a, r, PageCount(sz), PageCount(sz1), flags)
    ensures ImageIs(k.mem, k.a, r, sz1, b + Zeros((PageCount(sz1) - PageCount(sz)) * PGSIZE))
  {
    ReadsGrew(m, k.mem, a, k.a, r, PageCount(sz), PageCount(sz1), 0, b);
    ReadsZeros(k, r, PageCount(sz), PageCount(sz1), flags);
    ReadsBoth(k.mem, k.a, r, 0, b, PageCount(sz) * PGSIZE, Zeros((PageCount(sz1) - PageCount(sz)) * PGSIZE));
  }

  // loadseg

  /** Reads a segment into pages that are there; fails exactly if the file is too
      short. */
  method LoadSeg(k: PhysicalMemory, r: nat, seg: Segment, ghost n: nat) returns (ok: bool)
    requires k.Valid() && UserOnly(k.a, r) && OpenPages(k.a, r, 0, n) && seg.vaddr % PGSIZE == 0
    requires seg.vaddr + seg.filesz <= n * PGSIZE
    modifies k`mem
    ensures k.Valid() && (ok <==> seg.filesz <= |seg.data|)
    ensures ok ==> Wrote(old(k.mem), k.mem, k.a, r, seg.vaddr, seg.data[..seg.filesz])
    ensures ok ==> Reads(k.mem, k.a, r, seg.vaddr, seg.data[..seg.filesz])
    ensures exists done :: 0 <= done <= |seg.data| && Wrote(old(k.mem), k.mem, k.a, r, seg.vaddr, seg.data[..done])
  {
    WroteNothing(k, r, seg.vaddr);
    assert seg.data[..0] == [];
    var i := 0;
    while i < seg.filesz
      invariant i <= seg.filesz && i <= |seg.data| && (i % PGSIZE == 0 || i == seg.filesz) && k.Valid()
      invariant Wrote(old(k.mem), k.mem, k.a, r, seg.vaddr, seg.data[..i])
    {
      var n1 := Min(PGSIZE, seg.filesz - i);
      if i + n1 > |seg.data| {
        if i < |seg.data| {
          LoadPart(k, r, seg, n, i, |seg.data| - i, old(k.mem));
        }
        return false;
      }
      LoadPart(k, r, seg, n, i, n1, old(k.mem));
      i := i + n1;
    }
    assert seg.data[..i] == seg.data[..seg.filesz];
    SegOpen(k.a, r, n, seg.vaddr, seg.filesz);
    WroteReads(k, old(k.mem), r, seg.vaddr, seg.data[..seg.filesz]);
    ok := true;
  }

  lemma {:induction false} SegOpen(a: Abstract, r: nat, n: nat, va: nat, len: nat)
    requires OpenPages(a, r, 0, n) && va + len <= n * PGSIZE
    ensures AllAccessible(a, r, va, len)
  {
    forall i: nat | i < len ensures AccessibleFrom(a, r, va, i) {
      assert (va + i) / PGSIZE < n;
    }
  }

  method LoadPart(k: PhysicalMemory, r: nat, seg: Segment, ghost n: nat, i: nat, n1: nat, ghost m0: Memory)
    requires k.Valid() && UserOnly(k.a, r) && OpenPages(k.a, r, 0, n) && seg.vaddr % PGSIZE == 0
    requires seg.vaddr + seg.filesz <= n * PGSIZE
    requires i % PGSIZE == 0 && 0 < n1 <= PGSIZE && i + n1 <= seg.filesz && i + n1 <= |seg.data|
    requires Wrote(m0, k.mem, k.a, r, seg.vaddr, seg.data[..i])
    modifies k`mem
    ensures k.Valid() && Wrote(m0, k.mem, k.a, r, seg.vaddr, seg.data[..i + n1])
  {
    var va := seg.vaddr + i;
    assert va % PGSIZE == 0 && va / PGSIZE < n;
    assert Accessible(k.a, r, va / PGSIZE);
    var p := Walkaddr(k, r, va / PGSIZE);
    assert p != 0;
    var bytes := seg.data[i..i + n1] + k.mem[p].bytes[n1..];
    assert bytes == k.mem[p].bytes[..0] + seg.data[i..i + n1] + k.mem[p].bytes[0 + n1..];
    WroteMore(k, m0, r, seg.vaddr, seg.data, i, n1, va, bytes);
    WriteInv(k.mem, k.freelist, k.lo, k.a, p, Data(bytes));
    k.mem := k.mem[p := Data(bytes)];
  }

  // The loading loop

  /** A header that exec accepts. */
  predicate Loadable(seg: Segment) {
    && seg.found
    && (seg.load ==>
         && seg.filesz <= seg.memsz && seg.vaddr + seg.memsz < UINT64_LIMIT && seg.vaddr % PGSIZE == 0
         && seg.filesz <= |seg.data|)
  }

  /** The image with one more segment: zeros up to its end, and its bytes over them. */
  function Loaded(b: seq<byte>, seg: Segment): (t: seq<byte>)
    requires Loadable(seg) && seg.load
    ensures |t| == var end := PageCount(seg.vaddr + seg.memsz) * PGSIZE; if end > |b| then end else |b|
  {
    Over(Padded(b, PageCount(seg.vaddr + seg.memsz) * PGSIZE), seg.vaddr, seg.data[..seg.filesz])
  }

  /** Page `v` has the permissions of a segment with the ELF flags `elf`. */
  ghost predicate SegPage(a: Abstract, r: nat, v: nat, elf: nat) {
    r in a.spaces && v in a.spaces[r].leaf && SegFlags(a.spaces[r].leaf[v].flags, elf)
  }

  /** Pages x .. y - 1 have been added for such a segment, and no other has changed its entry. */
  ghost predicate SegAdded(a: Abstract, a': Abstract, r: nat, x: nat, y: nat, elf: nat) {
    && r in a.spaces && r in a'.spaces && LeafKept(a.spaces[r].leaf, a'.spaces[r].leaf, x, y)
    && forall v: nat {:trigger SegPage(a', r, v, elf)} :: x <= v < y ==> SegPage(a', r, v, elf)
  }

  /** The memory for a segment can be had, and uvmalloc does not return 0, which exec takes for a failure. */
  ghost predicate RoomFor(a: Abstract, r: nat, sz0: nat, seg: Segment)
    requires r in a.spaces
  {
    WithEnd(sz0, seg) > 0 && Affords(a, r, PageCount(sz0), PageCount(WithEnd(sz0, seg)))
  }

  /** One program header; `sz` stays the size of what has been mapped, also on
      failure. */
  method LoadOne(k: PhysicalMemory, r: nat, sz0: nat, seg: Segment, ghost b: seq<byte>, ghost m0: Memory,
      ghost a0: Abstract, ghost f0: nat)
    returns (ok: bool, sz: nat)
    requires k.Valid() && Inv(m0, f0, k.lo, a0) && Loading(k.mem, k.a, r, sz0, m0, a0) && ImageIs(k.mem, k.a, r, sz0, b)
    modifies k
    ensures k.Valid() && Loading(k.mem, k.a, r, sz, m0, a0)
    ensures ok <==> Loadable(seg) && (seg.load ==> RoomFor(old(k.a), r, sz0, seg))
    ensures ok && seg.load ==> sz == WithEnd(sz0, seg) && ImageIs(k.mem, k.a, r, sz, Loaded(b, seg))
    ensures ok && seg.load ==> LoadedAs(old(k.a), k.a, r, sz0, sz, seg.flags)
    ensures ok && !seg.load ==> sz == sz0 && unchanged(k)
  {
    sz := sz0;
    if !seg.found {
      return false, sz;
    }
    if !seg.load {
      return true, sz;
    }
    if seg.memsz < seg.filesz || seg.vaddr + seg.memsz >= UINT64_LIMIT || seg.vaddr % PGSIZE != 0 {
      return false, sz;
    }
    ok, sz := LoadSegment(k, r, sz0, seg, b, m0, a0, f0);
  }

  /** The pages between the two sizes have been bought, with the permissions of the segment. */
  ghost predicate LoadedAs(a: Abstract, a': Abstract, r: nat, sz0: nat, sz: nat, elf: nat) {
    && PageCount(sz0) <= PageCount(sz) && SegAdded(a, a', r, PageCount(sz0), PageCount(sz), elf)
    && PaidFor(a, a', r, PageCount(sz0), PageCount(sz), PageCount(sz) - PageCount(sz0))
  }

  /** A segment that has passed the checks. */
  method LoadSegment(k: PhysicalMemory, r: nat, sz0: nat, seg: Segment, ghost b: seq<byte>, ghost m0: Memory,
      ghost a0: Abstract, ghost f0: nat)
    returns (ok: bool, sz: nat)
    requires k.Valid() && Inv(m0, f0, k.lo, a0) && Loading(k.mem, k.a, r, sz0, m0, a0) && ImageIs(k.mem, k.a, r, sz0, b)
    requires seg.filesz <= seg.memsz && seg.vaddr % PGSIZE == 0 && seg.found && seg.load
    requires seg.vaddr + seg.memsz < UINT64_LIMIT
    modifies k
    ensures k.Valid() && Loading(k.mem, k.a, r, sz, m0, a0)
    ensures ok <==> Loadable(seg) && RoomFor(old(k.a), r, sz0, seg)
    ensures ok ==> sz == WithEnd(sz0, seg) && ImageIs(k.mem, k.a, r, sz, Loaded(b, seg))
    ensures ok ==> LoadedAs(old(k.a), k.a, r, sz0, sz, seg.flags)
  {
    SegBits(seg.flags);
    ok, sz := MakeRoom(k, r, sz0, seg, Flags2Perm(seg.flags), b, m0, a0);
    if ok {
      ghost var b1 := Padded(b, PageCount(sz) * PGSIZE);
      PaddedImage(b, seg, sz0, sz, b1);
      ok := LoadData(k, r, sz, seg, b1, m0, a0, f0);
    }
  }

  lemma {:induction false} PaddedImage(b: seq<byte>, seg: Segment, sz0: nat, sz: nat, b1: seq<byte>)
    requires |b| == PageCount(sz0) * PGSIZE && sz == WithEnd(sz0, seg) && seg.filesz <= seg.memsz && seg.found
    requires seg.load
    requires b1 == Padded(b, PageCount(sz) * PGSIZE)
    ensures seg.vaddr + seg.filesz <= sz && seg.vaddr + seg.filesz <= |b1|
    ensures Loadable(seg) ==> Loaded(b, seg) == Over(b1, seg.vaddr, seg.data[..seg.filesz])
  {
  }

  /** uvmalloc up to the end of a segment. */
  method MakeRoom(k: PhysicalMemory, r: nat, sz0: nat, seg: Segment, xperm: nat, ghost b: seq<byte>, ghost m0: Memory,
      ghost a0: Abstract)
    returns (ok: bool, sz: nat)
    requires k.Valid() && Loading(k.mem, k.a, r, sz0, m0, a0) && ImageIs(k.mem, k.a, r, sz0, b) && UserPerm(xperm)
    requires seg.load && SegFlags(PTE_V + PTE_R + PTE_U + xperm, seg.flags)
    modifies k
    ensures k.Valid() && Loading(k.mem, k.a, r, sz, m0, a0)
    ensures (ok <==> RoomFor(old(k.a), r, sz0, seg)) && sz == if ok then WithEnd(sz0, seg) else sz0
    ensures ok ==> ImageIs(k.mem, k.a, r, sz, Padded(b, PageCount(sz) * PGSIZE))
    ensures ok ==> LoadedAs(old(k.a), k.a, r, sz0, sz, seg.flags)
  {
    ghost var m1, a1, grown := k.mem, k.a, true;
    var end := seg.vaddr + seg.memsz;
    sz, grown := Uvmalloc(k, r, sz0, end, xperm);
    RoomWhen(a1, r, sz0, end, seg, sz, grown);
    if sz == 0 {
      LoadingFailed(m0, m1, k.mem, a0, a1, k.a, r, sz0);
      return false, sz0;
    }
    Room(k, r, sz0, sz, xperm, b, m0, m1, a0, a1);
    PagesAdded(k.mem, a1, k.a, r, PageCount(sz0), PageCount(sz), PTE_V + PTE_R + PTE_U + xperm, seg.flags);
    ok := true;
  }

  lemma {:induction false} RoomWhen(a: Abstract, r: nat, sz0: nat, end: nat, seg: Segment, sz: nat, grown: bool)
    requires r in a.spaces && seg.load && end == seg.vaddr + seg.memsz && (end < sz0 ==> grown && sz == sz0)
    requires end >= sz0 ==> (grown <==> Affords(a, r, PageCount(sz0), PageCount(end))) && sz == if grown then end else 0
    ensures (sz != 0 <==> RoomFor(a, r, sz0, seg)) && (sz != 0 ==> sz == WithEnd(sz0, seg) && grown)
  {
    AffordsNone(a, r, PageCount(sz0));
  }

  lemma {:induction false} AffordsNone(a: Abstract, r: nat, x: nat)
    requires r in a.spaces
    ensures Affords(a, r, x, x)
  {
    assert Paths(x, x) - NodesOf(a, r) == {};
  }

  lemma {:induction false} PagesAdded(mem: Memory, a: Abstract, a': Abstract, r: nat, x: nat, y: nat, flags: nat,
      elf: nat)
    requires r in a.spaces && r in a'.spaces && LeafKept(a.spaces[r].leaf, a'.spaces[r].leaf, x, y)
    requires ZeroesFrom(mem, a', r, x, y, flags) && SegFlags(flags, elf)
    ensures SegAdded(a, a', r, x, y, elf)
  {
    forall v: nat | x <= v < y ensures SegPage(a', r, v, elf) {
      assert PageIs(mem, a', r, v, Filled(0), flags);
    }
  }

  lemma {:induction false} Room(k: PhysicalMemory, r: nat, sz: nat, sz1: nat, xperm: nat, b: seq<byte>, m0: Memory,
      m1: Memory, a0: Abstract, a1: Abstract)
    requires k.Valid() && Loading(m1, a1, r, sz, m0, a0)
    requires Grew(m1, k.mem, a1, k.a, r, PageCount(sz), PageCount(sz1), {}) && sz <= sz1
    requires UserPerm(xperm) && ZeroesFrom(k.mem, k.a, r, PageCount(sz), PageCount(sz1), PTE_V + PTE_R + PTE_U + xperm)
    requires Dense(k.a, r, PageCount(sz1)) && ImageIs(m1, a1, r, sz, b)
    ensures Loading(k.mem, k.a, r, sz1, m0, a0)
    ensures ImageIs(k.mem, k.a, r, sz1, Padded(b, PageCount(sz1) * PGSIZE))
  {
    PermHasU(xperm);
    LoadingGrew(m0, m1, k.mem, a0, a1, k.a, r, sz, sz1, PTE_V + PTE_R + PTE_U + xperm);
    TopsClosed(k.mem, k.freelist, k.lo, k.a, r);
    ImageGrew(k, r, m1, a1, sz, sz1, PTE_V + PTE_R + PTE_U + xperm, b);
    assert Padded(b, PageCount(sz1) * PGSIZE) == b + Zeros((PageCount(sz1) - PageCount(sz)) * PGSIZE);
  }

  lemma {:induction false} PermHasU(xperm: nat)
    requires UserPerm(xperm)
    ensures HasU(PTE_V + PTE_R + PTE_U + xperm)
  {
  }

  method LoadData(k: PhysicalMemory, r: nat, ghost sz: nat, seg: Segment, ghost b: seq<byte>, ghost m0: Memory,
      ghost a0: Abstract, ghost f0: nat)
    returns (ok: bool)
    requires k.Valid() && Inv(m0, f0, k.lo, a0) && Loading(k.mem, k.a, r, sz, m0, a0) && ImageIs(k.mem, k.a, r, sz, b)
    requires seg.vaddr % PGSIZE == 0 && seg.vaddr + seg.filesz <= sz
    modifies k`mem
    ensures k.Valid() && Loading(k.mem, k.a, r, sz, m0, a0)
    ensures (ok <==> seg.filesz <= |seg.data|) && seg.vaddr + seg.filesz <= |b|
    ensures ok ==> ImageIs(k.mem, k.a, r, sz, Over(b, seg.vaddr, seg.data[..seg.filesz]))
  {
    ghost var m1 := k.mem;
    TopsClosed(k.mem, k.freelist, k.lo, k.a, r);
    ok := LoadSeg(k, r, seg, PageCount(sz));
    ghost var done :| 0 <= done <= |seg.data| && Wrote(m1, k.mem, k.a, r, seg.vaddr, seg.data[..done]);
    CreatedWrote(k.lo, f0, m0, m1, k.mem, a0, k.a, r, PageCount(sz), seg.vaddr, seg.data[..done]);
    if ok {
      ReadsOver(m1, k.mem, k.a, r, seg.vaddr, seg.data[..seg.filesz], b);
    }
  }

  // What the segments cost, together

  /** What is left, after the first pages have been bought, does for the pages up to `y` exactly if there
      was enough for them all. */
  lemma {:induction false} AffordsOn(a0: Abstract, a: Abstract, r: nat, x: nat, y: nat)
    requires PaidFor(a0, a, r, 0, x, x) && x <= y
    ensures Affords(a, r, x, y) <==> Affords(a0, r, 0, y)
  {
    CostSplit(a0, a, r, 0, x, y);
  }

  lemma {:induction false} AffordsLess(a: Abstract, r: nat, x: nat, y: nat)
    requires r in a.spaces && x <= y && Affords(a, r, 0, y)
    ensures Affords(a, r, 0, x)
  {
    CostGrows(a, r, 0, x, y);
  }

  lemma {:induction false} PaidUpTo(a0: Abstract, a1: Abstract, a2: Abstract, r: nat, x: nat, y: nat)
    requires PaidFor(a0, a1, r, 0, x, x) && x <= y && PaidFor(a1, a2, r, x, y, y - x)
    ensures PaidFor(a0, a2, r, 0, y, y)
  {
    PaidOn(a0, a1, a2, r, x, y - x);
    PathsSplit(0, x, y);
    AddsSet(a0, a1, r, Paths(0, x));
    AddsSet(a1, a2, r, Paths(x, y));
    AddsSet(a0, a2, r, Paths(0, y));
  }

  lemma {:induction false} SizesGrow(segs: seq<Segment>, i: nat, j: nat)
    requires i <= j <= |segs|
    ensures ImageSize(segs[..i]) <= ImageSize(segs[..j])
    decreases j
  {
    if i < j {
      SizesGrow(segs, i, j - 1);
      assert segs[..j][..j - 1] == segs[..j - 1];
    }
  }

  /** Each of the first `n` segments has given its permissions to the pages that it has added. */
  ghost predicate SegsMapped(a: Abstract, r: nat, segs: seq<Segment>, n: nat)
    requires n <= |segs|
  {
    forall i: nat, v: nat {:trigger SegPage(a, r, v, segs[i].flags)} ::
      (i < n && PageCount(ImageSize(segs[..i])) <= v < PageCount(ImageSize(segs[..i + 1])) ==>
         SegPage(a, r, v, segs[i].flags))
  }

  lemma {:induction false} SegsKept(a: Abstract, a': Abstract, r: nat, segs: seq<Segment>, n: nat, x: nat, y: nat)
    requires n <= |segs| && SegsMapped(a, r, segs, n) && r in a.spaces && r in a'.spaces
    requires PageCount(ImageSize(segs[..n])) <= x && LeafKept(a.spaces[r].leaf, a'.spaces[r].leaf, x, y)
    ensures SegsMapped(a', r, segs, n)
  {
    forall i: nat, v: nat | i < n && PageCount(ImageSize(segs[..i])) <= v < PageCount(ImageSize(segs[..i + 1]))
      ensures SegPage(a', r, v, segs[i].flags)
    {
      SizesGrow(segs, i + 1, n);
      assert SegPage(a, r, v, segs[i].flags);
    }
  }

  lemma {:induction false} SegsNext(a: Abstract, a': Abstract, r: nat, segs: seq<Segment>, n: nat)
    requires n < |segs| && SegsMapped(a, r, segs, n)
    requires SegAdded(a, a', r, PageCount(ImageSize(segs[..n])), PageCount(ImageSize(segs[..n + 1])), segs[n].flags)
    ensures SegsMapped(a', r, segs, n + 1)
  {
    SegsKept(a, a', r, segs, n, PageCount(ImageSize(segs[..n])), PageCount(ImageSize(segs[..n + 1])));
    forall i: nat, v: nat | i < n + 1 && PageCount(ImageSize(segs[..i])) <= v < PageCount(ImageSize(segs[..i + 1]))
      ensures SegPage(a', r, v, segs[i].flags)
    {
      assert i == n ==> SegPage(a', r, v, segs[n].flags);
    }
  }

  /** Loads all segments: the memory is then the image that the headers describe, each page with the
      permissions of the segment it was added for.  It fails exactly if a header is not acceptable or there
      is not enough memory. */
  method LoadAll(k: PhysicalMemory, r: nat, segs: seq<Segment>, ghost m0: Memory, ghost a0: Abstract, ghost f0: nat)
      returns (ok: bool, sz: nat)
    requires k.Valid() && Inv(m0, f0, k.lo, a0) && Loading(k.mem, k.a, r, 0, m0, a0)
    modifies k
    ensures k.Valid() && Loading(k.mem, k.a, r, sz, m0, a0)
    ensures ok <==> AllLoadable(segs) && Affords(old(k.a), r, 0, PageCount(ImageSize(segs)))
    ensures ok ==> sz == ImageSize(segs) && ImageIs(k.mem, k.a, r, sz, ImageBytes(segs))
    ensures ok ==> SegsMapped(k.a, r, segs, |segs|) && PaidFor(old(k.a), k.a, r, 0, PageCount(sz), PageCount(sz))
  {
    sz := 0;
    var i := 0;
    PaidNothing(k.a, r, 0);
    while i < |segs|
      invariant 0 <= i <= |segs| && k.Valid() && Loading(k.mem, k.a, r, sz, m0, a0)
      invariant SoFar(k.mem, k.a, r, sz, segs, i, old(k.a))
    {
      ok, sz := LoadTurn(k, r, sz, segs, i, m0, a0, f0, old(k.a));
      if !ok {
        return;
      }
      i := i + 1;
    }
    assert segs[..i] == segs;
    CouldGrow(old(k.a), k.a, r, 0, PageCount(sz));
    ok := true;
  }

  /** The first `n` headers have been loaded, since `a1`. */
  ghost predicate SoFar(mem: Memory, a: Abstract, r: nat, sz: nat, segs: seq<Segment>, n: nat, a1: Abstract)
    requires n <= |segs|
  {
    && sz == ImageSize(segs[..n]) && AllLoadable(segs[..n]) && ImageIs(mem, a, r, sz, ImageBytes(segs[..n]))
    && SegsMapped(a, r, segs, n) && PaidFor(a1, a, r, 0, PageCount(sz), PageCount(sz))
  }

  method LoadTurn(k: PhysicalMemory, r: nat, sz0: nat, segs: seq<Segment>, i: nat, ghost m0: Memory,
      ghost a0: Abstract, ghost f0: nat, ghost a1: Abstract)
    returns (ok: bool, sz: nat)
    requires k.Valid() && Inv(m0, f0, k.lo, a0) && Loading(k.mem, k.a, r, sz0, m0, a0)
    requires i < |segs| && SoFar(k.mem, k.a, r, sz0, segs, i, a1)
    modifies k
    ensures k.Valid() && Loading(k.mem, k.a, r, sz, m0, a0)
    ensures ok ==> SoFar(k.mem, k.a, r, sz, segs, i + 1, a1)
    ensures !ok ==> !(AllLoadable(segs) && Affords(a1, r, 0, PageCount(ImageSize(segs))))
  {
    ImageNext(segs, i);
    ok, sz := LoadOne(k, r, sz0, segs[i], ImageBytes(segs[..i]), m0, a0, f0);
    if ok {
      TurnDone(old(k.a), k.a, r, segs, i, sz0, sz, a1);
    } else {
      TurnFailed(old(k.a), r, segs, i, sz0, a1);
    }
  }

  lemma {:induction false} TurnDone(a: Abstract, a': Abstract, r: nat, segs: seq<Segment>, i: nat, sz0: nat, sz: nat,
      a1: Abstract)
    requires i < |segs| && SegsMapped(a, r, segs, i) && PaidFor(a1, a, r, 0, PageCount(sz0), PageCount(sz0))
    requires sz0 == ImageSize(segs[..i]) && sz == ImageSize(segs[..i + 1])
    requires if segs[i].load then LoadedAs(a, a', r, sz0, sz, segs[i].flags) else sz == sz0 && a' == a
    ensures SegsMapped(a', r, segs, i + 1) && PaidFor(a1, a', r, 0, PageCount(sz), PageCount(sz))
  {
    if segs[i].load {
      SegsNext(a, a', r, segs, i);
      PaidUpTo(a1, a, a', r, PageCount(sz0), PageCount(sz));
    }
  }

  lemma {:induction false} TurnFailed(a: Abstract, r: nat, segs: seq<Segment>, i: nat, sz0: nat, a1: Abstract)
    requires i < |segs| && PaidFor(a1, a, r, 0, PageCount(sz0), PageCount(sz0)) && sz0 == ImageSize(segs[..i])
    requires ImageSize(segs[..i + 1]) == WithEnd(sz0, segs[i])
    requires !(Loadable(segs[i]) && (segs[i].load ==> RoomFor(a, r, sz0, segs[i])))
    ensures !(AllLoadable(segs) && Affords(a1, r, 0, PageCount(ImageSize(segs))))
  {
    SizesGrow(segs, i + 1, |segs|);
    assert segs[..|segs|] == segs;
    if AllLoadable(segs) {
      assert LoadableAt(segs, i);
      NoRoom(a1, a, r, PageCount(sz0), PageCount(WithEnd(sz0, segs[i])), PageCount(ImageSize(segs)));
    }
  }

  lemma {:induction false} NoRoom(a0: Abstract, a: Abstract, r: nat, x: nat, y: nat, z: nat)
    requires PaidFor(a0, a, r, 0, x, x) && x <= y <= z && !Affords(a, r, x, y)
    ensures !Affords(a0, r, 0, z)
  {
    AffordsOn(a0, a, r, x, y);
    if Affords(a0, r, 0, z) {
      AffordsLess(a0, r, y, z);
    }
  }

  lemma {:induction false} ImageNext(segs: seq<Segment>, i: nat)
    requires i < |segs| && AllLoadable(segs[..i])
    ensures ImageSize(segs[..i + 1]) == WithEnd(ImageSize(segs[..i]), segs[i])
    ensures AllLoadable(segs[..i + 1]) <==> Loadable(segs[i]) && (segs[i].load ==> ImageSize(segs[..i + 1]) > 0)
    ensures AllLoadable(segs[..i + 1]) ==> ImageBytes(segs[..i + 1]) == WithSegment(ImageBytes(segs[..i]), segs[i])
  {
    var s := segs[..i + 1];
    assert s[..|s| - 1] == segs[..i];
    forall j | 0 <= j < |s| ensures LoadableAt(s, j) <==> LoadableAt(segs, j) {
      assert s[..j + 1] == segs[..j + 1];
    }
    forall j | 0 <= j < i ensures LoadableAt(segs, j) {
      assert LoadableAt(segs[..i], j) && segs[..i][..j + 1] == segs[..j + 1];
    }
    assert LoadableAt(s, i) <==> LoadableAt(segs, i);
  }

  function WithSegment(b: seq<byte>, seg: Segment): seq<byte>
    requires Loadable(seg)
  {
    if seg.load then Loaded(b, seg) else b
  }

  function WithEnd(sz: nat, seg: Segment): nat {
    if seg.load && seg.vaddr + seg.memsz > sz then seg.vaddr + seg.memsz else sz
  }

  /** Header `i` is acceptable, and if it is to be loaded the image is not empty then: uvmalloc would return
      its size, 0, and exec takes that for a failure. */
  predicate LoadableAt(segs: seq<Segment>, i: nat)
    requires i < |segs|
  {
    Loadable(segs[i]) && (segs[i].load ==> ImageSize(segs[..i + 1]) > 0)
  }

  predicate AllLoadable(segs: seq<Segment>) {
    forall i :: 0 <= i < |segs| ==> LoadableAt(segs, i)
  }

  /** What the headers describe: later segments over earlier ones, zeros elsewhere. */
  function ImageBytes(segs: seq<Segment>): (b: seq<byte>)
    requires AllLoadable(segs)
  {
    if segs == [] then []
    else
      AllButLast(segs);
      WithSegment(ImageBytes(segs[..|segs| - 1]), segs[|segs| - 1])
  }

  lemma {:induction false} AllButLast(segs: seq<Segment>)
    requires AllLoadable(segs) && segs != []
    ensures AllLoadable(segs[..|segs| - 1]) && Loadable(segs[|segs| - 1])
  {
    var s := segs[..|segs| - 1];
    assert LoadableAt(segs, |segs| - 1);
    forall j | 0 <= j < |s| ensures LoadableAt(s, j) {
      assert LoadableAt(segs, j) && s[..j + 1] == segs[..j + 1];
    }
  }

  /** The end of the highest loaded segment. */
  function ImageSize(segs: seq<Segment>): nat {
    if segs == [] then 0
    else WithEnd(ImageSize(segs[..|segs| - 1]), segs[|segs| - 1])
  }

  // The stack

  ghost function WithFlags(a: Abstract, r: nat, v: nat, flags: nat): Abstract
    requires r in a.spaces && v in a.spaces[r].leaf
  {
    a.(spaces := a.spaces[r := a.spaces[r].(leaf := a.spaces[r].leaf[v := a.spaces[r].leaf[v].(flags := flags)])])
  }

  lemma {:induction false} FlagsChange(mem: Memory, f: nat, lo: nat, a: Abstract, r: nat, v: nat, flags: nat)
    requires Inv(mem, f, lo, a) && r in a.spaces && v in a.spaces[r].leaf && FlagsOk(flags)
    ensures (0, v / 512) in a.spaces[r].node && LeafChange(mem, a, WithFlags(a, r, v, flags), r, v)
  {
    assert SpaceOk(mem, a.uses, r, a.spaces[r]) && LeafOk(a.uses, r, a.spaces[r], v);
    var a' := WithFlags(a, r, v, flags);
    forall p: nat | p in a'.uses && p < |mem| && LeafUse(a.uses[p], r, v) ensures UseOk(mem, a', p) {
      assert UseOk(mem, a, p);
    }
  }

  lemma {:induction false} ClearedBit(pte: nat)
    requires HasU(FlagsOf(pte))
    ensures FlagsOf(pte) >= PTE_U && pte >= PTE_U && pte - PTE_U == Pte(PpnOf(pte), FlagsOf(pte) - PTE_U)
  {
  }

  lemma {:induction false} NoU(flags: nat)
    requires HasU(flags)
    ensures flags >= PTE_U && !HasU(flags - PTE_U)
  {
  }

  /** Takes a page away from user access, by clearing PTE_U. */
  method Uvmclear(k: PhysicalMemory, r: nat, v: nat)
    requires k.Valid() && r in k.a.spaces && v in k.a.spaces[r].leaf && v < VPN_LIMIT
    requires HasU(k.a.spaces[r].leaf[v].flags) && FlagsOk(k.a.spaces[r].leaf[v].flags - PTE_U)
    modifies k
    ensures k.Valid() && k.a == WithFlags(old(k.a), r, v, old(k.a).spaces[r].leaf[v].flags - PTE_U)
    ensures !Accessible(k.a, r, v)
    ensures |k.mem| == |old(k.mem)|
    ensures forall p: nat ::
      p in k.a.uses && Held(k.a.uses[p]) ==> PageKept(old(k.mem), k.mem, p)
  {
    var t := k.Walk(r, v);
    k.MappedEntry(r, v, t);
    assert t != 0;
    var pte := k.mem[t].pte[v % 512];
    ghost var flags := k.a.spaces[r].leaf[v].flags;
    NoU(flags);
    FlagsChange(k.mem, k.freelist, k.lo, k.a, r, v, flags - PTE_U);
    LeafInv(k.mem, k.freelist, k.lo, k.a, WithFlags(k.a, r, v, flags - PTE_U), r, v);
    ClearedBit(pte);
    k.mem := PteSet(k.mem, t, v % 512, pte - PTE_U);
    k.a := WithFlags(k.a, r, v, flags - PTE_U);
  }

  /** The image is complete: `sz` is page-aligned, the last page is the stack, and the
      one below it is the guard page. */
  ghost predicate Stacked(a: Abstract, r: nat, sz: nat) {
    && sz % PGSIZE == 0 && sz >= 2 * PGSIZE && Dense(a, r, sz / PGSIZE) && TopsOk(a, r)
    && Accessible(a, r, sz / PGSIZE - 1) && !Accessible(a, r, sz / PGSIZE - 2)
    && a.spaces[r].leaf[sz / PGSIZE - 1].flags == PTE_V + PTE_R + PTE_W + PTE_U
    && OpenPages(a, r, 0, sz / PGSIZE - 2)
  }

  /** Guard page and stack above the segments; the image below stays as it is.  It fails exactly if there is
      not enough memory. */
  method AddStack(k: PhysicalMemory, r: nat, sz0: nat, n: nat, ghost all: nat, ghost b: seq<byte>, ghost m0: Memory,
      ghost a0: Abstract, ghost f0: nat)
    returns (ok: bool, sz: nat)
    requires k.Valid() && Inv(m0, f0, k.lo, a0) && Loading(k.mem, k.a, r, sz0, m0, a0) && ImageIs(k.mem, k.a, r, sz0, b)
    requires n == PageCount(sz0) && all == n + 2
    modifies k
    ensures k.Valid() && Partial(k.mem, k.a, r, sz, m0, a0)
    ensures ok ==> sz == all * PGSIZE && Ready(k.mem, k.a, r, sz, b, m0, a0)
    ensures ok <==> Affords(old(k.a), r, n, all)
    ensures ok ==> LeafKept(old(k.a).spaces[r].leaf, k.a.spaces[r].leaf, n, all)
  {
    sz := n * PGSIZE;
    WholePages(n);
    WholePages(all);
    ok, sz := TwoPages(k, r, sz, n, all, b, m0, a0);
    if ok {
      GuardPage(k, r, n, b, m0, a0);
    }
  }

  lemma {:induction false} WholePages(n: nat)
    ensures PageCount(n * PGSIZE) == n
  {
  }

  method TwoPages(k: PhysicalMemory, r: nat, sz0: nat, ghost n: nat, ghost all: nat, ghost b: seq<byte>,
      ghost m0: Memory, ghost a0: Abstract)
    returns (ok: bool, sz: nat)
    requires k.Valid() && Loading(k.mem, k.a, r, sz0, m0, a0) && sz0 == n * PGSIZE && PageCount(sz0) == n
    requires all == n + 2 && PageCount(sz0 + 2 * PGSIZE) == all
    requires |b| <= n * PGSIZE && Reads(k.mem, k.a, r, 0, b)
    modifies k
    ensures k.Valid() && sz == (if ok then sz0 + 2 * PGSIZE else sz0) && Loading(k.mem, k.a, r, sz, m0, a0)
    ensures ok ==> ZeroesFrom(k.mem, k.a, r, n, all, PTE_V + PTE_R + PTE_U + PTE_W) && Reads(k.mem, k.a, r, 0, b)
    ensures ok <==> Affords(old(k.a), r, n, all)
    ensures ok ==> LeafKept(old(k.a).spaces[r].leaf, k.a.spaces[r].leaf, n, all)
  {
    ghost var m1, a1, grown := k.mem, k.a, true;
    sz, grown := Uvmalloc(k, r, sz0, sz0 + 2 * PGSIZE, PTE_W);
    if sz == 0 {
      LoadingFailed(m0, m1, k.mem, a0, a1, k.a, r, sz0);
      return false, sz0;
    }
    PermHasU(PTE_W);
    LoadingGrew(m0, m1, k.mem, a0, a1, k.a, r, sz0, sz, PTE_V + PTE_R + PTE_U + PTE_W);
    ReadsGrew(m1, k.mem, a1, k.a, r, PageCount(sz0), PageCount(sz), 0, b);
    ok := true;
  }

  method GuardPage(k: PhysicalMemory, r: nat, g: nat, ghost b: seq<byte>, ghost m0: Memory, ghost a0: Abstract)
    requires k.Valid() && Loading(k.mem, k.a, r, (g + 2) * PGSIZE, m0, a0) && |b| <= g * PGSIZE
    requires Reads(k.mem, k.a, r, 0, b)
    requires ZeroesFrom(k.mem, k.a, r, g, g + 2, PTE_V + PTE_R + PTE_U + PTE_W)
    modifies k
    ensures k.Valid() && Created(m0, k.mem, a0, k.a, r, g + 2) && Stacked(k.a, r, (g + 2) * PGSIZE)
    ensures Reads(k.mem, k.a, r, 0, b) && LeafKept(old(k.a).spaces[r].leaf, k.a.spaces[r].leaf, g, g + 2)
  {
    OneFrom(g + 2);
    ghost var m1, a1 := k.mem, k.a;
    assert PageIs(k.mem, k.a, r, g, Filled(0), PTE_V + PTE_R + PTE_U + PTE_W);
    assert PageIs(k.mem, k.a, r, g + 1, Filled(0), PTE_V + PTE_R + PTE_U + PTE_W);
    assert Accessible(k.a, r, g + 1);
    Uvmclear(k, r, g);
    CreatedCleared(m0, m1, k.mem, a0, a1, k.a, r, g, PTE_V + PTE_R + PTE_W);
    ReadsCleared(m1, k.mem, a1, k.a, r, g, PTE_V + PTE_R + PTE_W, b);
  }

  lemma {:induction false} ReadsCleared(m: Memory, m': Memory, a: Abstract, a': Abstract, r: nat, g: nat, flags: nat,
      b: seq<byte>)
    requires Reads(m, a, r, 0, b) && |b| <= g * PGSIZE && r in a.spaces && g in a.spaces[r].leaf
    requires a' == WithFlags(a, r, g, flags)
    requires |m'| == |m| && forall p: nat :: p in a'.uses && Held(a'.uses[p]) ==> PageKept(m, m', p)
    ensures Reads(m', a', r, 0, b)
  {
    forall i: nat | i < |b| ensures ReadsByte(m', a', r, 0, i, b[i]) {
      assert ReadsByte(m, a, r, 0, i, b[i]);
      assert PageKept(m, m', a.spaces[r].leaf[i / PGSIZE].ppn);
    }
  }

  lemma {:induction false} CreatedCleared(m0: Memory, m1: Memory, m2: Memory, a0: Abstract, a1: Abstract,
      a2: Abstract, r: nat, g: nat, flags: nat)
    requires Created(m0, m1, a0, a1, r, g + 2) && Dense(a1, r, g + 2) && TopsOk(a1, r) && OpenPages(a1, r, 0, g + 2)
    requires g in a1.spaces[r].leaf && a2 == WithFlags(a1, r, g, flags) && !Accessible(a2, r, g)
    requires g + 1 in a1.spaces[r].leaf && a1.spaces[r].leaf[g + 1].flags == PTE_V + PTE_R + PTE_W + PTE_U
    requires forall p: nat :: p in a2.uses && Held(a2.uses[p]) ==> PageKept(m1, m2, p)
    ensures Created(m0, m2, a0, a2, r, g + 2) && Stacked(a2, r, (g + 2) * PGSIZE)
  {
    forall p: nat | p in a0.uses ensures PageGrew(a0.uses[p], a2.uses[p], r, 0, g + 2) {
      assert PageGrew(a0.uses[p], a1.uses[p], r, 0, g + 2);
    }
    forall p: nat | p in a0.uses && Held(a0.uses[p]) ensures PageKept(m0, m2, p) {
      assert PageGrew(a0.uses[p], a1.uses[p], r, 0, g + 2) && PageKept(m0, m1, p);
    }
    forall v: nat | v < TRAPFRAME ensures v in a2.spaces[r].leaf <==> v < g + 2 {
      assert v in a1.spaces[r].leaf <==> v < g + 2;
    }
    assert Accessible(a1, r, g + 1);
    forall v: nat | v < g ensures Accessible(a2, r, v) {
      assert Accessible(a1, r, v);
    }
  }

  // The arguments

  const WORDSIZE: nat := 8

  /** `len` bytes further down the stack, on a multiple of 16. */
  function Below(sp: int, len: nat): int {
    sp - len - (sp - len) % 16
  }

  /** The stack pointer when the strings of `args` have been pushed on a stack that ends
      at `sz`: the last of them lies there. */
  function ArgSp(sz: nat, args: seq<seq<byte>>): int {
    if args == [] then sz else Below(ArgSp(sz, args[..|args| - 1]), |args[|args| - 1]| + 1)
  }

  function ArgPtr(sz: nat, args: seq<seq<byte>>, i: nat): int
    requires i < |args|
  {
    ArgSp(sz, args[..i + 1])
  }

  /** The pointers to the strings, and the null pointer behind them. */
  function ArgPtrs(sz: nat, args: seq<seq<byte>>): seq<int> {
    seq(|args|, i requires 0 <= i < |args| => ArgPtr(sz, args, i)) + [0]
  }

  /** The stack pointer the program starts with. */
  function FinalSp(sz: nat, args: seq<seq<byte>>): int {
    Below(ArgSp(sz, args), (|args| + 1) * WORDSIZE)
  }

  function LittleEndian(x: int, n: nat): (s: seq<byte>)
    ensures |s| == n
    decreases n
  {
    if n == 0 then [] else [x % 256] + LittleEndian(x / 256, n - 1)
  }

  /** An array of 64-bit words */
  function WordBytes(xs: seq<int>): (s: seq<byte>)
    ensures |s| == WORDSIZE * |xs|
  {
    if xs == [] then [] else WordBytes(xs[..|xs| - 1]) + LittleEndian(xs[|xs| - 1], WORDSIZE)
  }

  ghost predicate ArgAt(mem: Memory, a: Abstract, r: nat, sz: nat, args: seq<seq<byte>>, i: nat)
    requires i < |args|
  {
    ArgPtr(sz, args, i) >= 0 && Reads(mem, a, r, ArgPtr(sz, args, i), args[i] + [0])
  }

  /** The strings of the first `n` arguments are on the stack. */
  ghost predicate ArgsAt(mem: Memory, a: Abstract, r: nat, sz: nat, args: seq<seq<byte>>, n: nat)
    requires n <= |args|
  {
    forall i: nat :: i < n ==> ArgAt(mem, a, r, sz, args, i)
  }

  ghost predicate ArgOk(arg: seq<byte>) {
    |arg| < PGSIZE && 0 !in arg
  }

  /** Later arguments lie further down. */
  lemma {:induction false} ArgSpDown(sz: nat, args: seq<seq<byte>>, i: nat, j: nat)
    requires i <= j <= |args|
    ensures ArgSp(sz, args[..j]) <= ArgSp(sz, args[..i])
    decreases j - i
  {
    if i < j {
      ArgSpDown(sz, args, i, j - 1);
      ArgSpNext(sz, args, j - 1);
    }
  }

  lemma {:induction false} ArgSpNext(sz: nat, args: seq<seq<byte>>, i: nat)
    requires i < |args|
    ensures ArgPtr(sz, args, i) == Below(ArgSp(sz, args[..i]), |args[i]| + 1) <= ArgSp(sz, args[..i]) - |args[i]| - 1
  {
    assert args[..i + 1][..i] == args[..i];
  }

  /** What has been pushed survives a write below it. */
  lemma {:induction false} ArgsApart(m: Memory, m': Memory, a: Abstract, r: nat, sz: nat, args: seq<seq<byte>>,
      n: nat, va: nat, src: seq<byte>)
    requires n <= |args| && ArgsAt(m, a, r, sz, args, n) && Wrote(m, m', a, r, va, src)
    requires va + |src| <= ArgSp(sz, args[..n])
    ensures ArgsAt(m', a, r, sz, args, n)
  {
    forall i: nat | i < n ensures ArgAt(m', a, r, sz, args, i) {
      assert ArgAt(m, a, r, sz, args, i);
      ArgSpDown(sz, args, i + 1, n);
      ReadsApart(m, m', a, r, va, src, ArgPtr(sz, args, i), args[i] + [0]);
    }
  }

  lemma {:induction false} StackOpen(a: Abstract, r: nat, sz: nat, va: nat, len: nat)
    requires Stacked(a, r, sz) && sz - PGSIZE <= va && va + len <= sz
    ensures AllAccessible(a, r, va, len)
  {
    forall i: nat | i < len ensures AccessibleFrom(a, r, va, i) {
      assert (va + i) / PGSIZE == sz / PGSIZE - 1;
    }
  }

  /** A new image, its size, its stack and its bytes below the guard page. */
  ghost predicate Ready(mem: Memory, a: Abstract, r: nat, sz: nat, b: seq<byte>, m0: Memory, a0: Abstract) {
    && Created(m0, mem, a0, a, r, PageCount(sz)) && Stacked(a, r, sz)
    && Reads(mem, a, r, 0, b) && |b| + 2 * PGSIZE == sz
  }

  /** Copies `src` to the stack at `va`. */
  method Push(k: PhysicalMemory, r: nat, sz: nat, va: nat, src: seq<byte>, ghost b: seq<byte>, ghost m0: Memory,
      ghost a0: Abstract, ghost f0: nat)
    requires k.Valid() && Inv(m0, f0, k.lo, a0) && Ready(k.mem, k.a, r, sz, b, m0, a0)
    requires sz - PGSIZE <= va && va + |src| <= sz
    modifies k`mem
    ensures k.Valid() && Ready(k.mem, k.a, r, sz, b, m0, a0)
    ensures Wrote(old(k.mem), k.mem, k.a, r, va, src) && Reads(k.mem, k.a, r, va, src)
  {
    TopsClosed(k.mem, k.freelist, k.lo, k.a, r);
    StackOpen(k.a, r, sz, va, |src|);
    ghost var done;
    var res;
    res, done := Copyout(k, r, va, src);
    assert res == 0 && src[..done] == src;
    CreatedWrote(k.lo, f0, m0, old(k.mem), k.mem, a0, k.a, r, PageCount(sz), va, src);
    ReadsApart(old(k.mem), k.mem, k.a, r, va, src, 0, b);
  }

  /** The strings, each with its NUL, from the end of the stack downwards. */
  method PushArgs(k: PhysicalMemory, r: nat, sz: nat, args: seq<seq<byte>>, ghost b: seq<byte>, ghost m0: Memory,
      ghost a0: Abstract, ghost f0: nat)
    returns (ok: bool, sp: nat, ustack: seq<int>)
    requires k.Valid() && Inv(m0, f0, k.lo, a0) && Ready(k.mem, k.a, r, sz, b, m0, a0)
    requires |args| < MAXARG && forall i :: 0 <= i < |args| ==> ArgOk(args[i])
    modifies k`mem
    ensures k.Valid() && Ready(k.mem, k.a, r, sz, b, m0, a0)
    ensures ok <==> ArgSp(sz, args) >= sz - PGSIZE
    ensures ok ==> sp == ArgSp(sz, args) && ustack + [0] == ArgPtrs(sz, args) && ArgsAt(k.mem, k.a, r, sz, args, |args|)
  {
    sp, ustack := sz, [];
    while |ustack| < |args|
      invariant |ustack| <= |args| && k.Valid() && Ready(k.mem, k.a, r, sz, b, m0, a0)
      invariant sp == ArgSp(sz, args[..|ustack|]) && sz - PGSIZE <= sp <= sz
      invariant forall i :: 0 <= i < |ustack| ==> ustack[i] == ArgPtr(sz, args, i)
      invariant ArgsAt(k.mem, k.a, r, sz, args, |ustack|)
    {
      ok, sp := PushArg(k, r, sz, args, |ustack|, sp, b, m0, a0, f0);
      if !ok {
        ArgSpDown(sz, args, |ustack| + 1, |args|);
        assert args[..|args|] == args;
        return;
      }
      ustack := ustack + [sp];
    }
    assert args[..|args|] == args;
    ok := true;
  }

  method PushArg(k: PhysicalMemory, r: nat, sz: nat, args: seq<seq<byte>>, i: nat, sp0: nat, ghost b: seq<byte>,
      ghost m0: Memory, ghost a0: Abstract, ghost f0: nat)
    returns (ok: bool, sp: nat)
    requires k.Valid() && Inv(m0, f0, k.lo, a0) && Ready(k.mem, k.a, r, sz, b, m0, a0)
    requires i < |args| && ArgOk(args[i]) && sp0 == ArgSp(sz, args[..i]) && sz - PGSIZE <= sp0 <= sz
    requires ArgsAt(k.mem, k.a, r, sz, args, i)
    modifies k`mem
    ensures k.Valid() && Ready(k.mem, k.a, r, sz, b, m0, a0)
    ensures sp == ArgPtr(sz, args, i) <= sz && (ok <==> sp >= sz - PGSIZE)
    ensures ok ==> ArgsAt(k.mem, k.a, r, sz, args, i + 1)
  {
    ArgSpNext(sz, args, i);
    sp := sp0 - (|args[i]| + 1);
    sp := sp - sp % 16;
    if sp < sz - PGSIZE {
      return false, sp;
    }
    Push(k, r, sz, sp, args[i] + [0], b, m0, a0, f0);
    ArgsApart(old(k.mem), k.mem, k.a, r, sz, args, i, sp, args[i] + [0]);
    assert ArgAt(k.mem, k.a, r, sz, args, i);
    ok := true;
  }

  /** The stack is set up: strings, and the array of pointers to them at the stack
      pointer. */
  ghost predicate StackSet(mem: Memory, a: Abstract, r: nat, sz: nat, args: seq<seq<byte>>, sp: nat) {
    && sp == FinalSp(sz, args) >= sz - PGSIZE && ArgsAt(mem, a, r, sz, args, |args|)
    && Reads(mem, a, r, sp, WordBytes(ArgPtrs(sz, args)))
  }

  /** The number a word in memory stands for */
  function Value(s: seq<byte>): nat {
    if s == [] then 0 else s[0] + 256 * Value(s[1..])
  }

  function Power(n: nat): nat {
    if n == 0 then 1 else 256 * Power(n - 1)
  }

  lemma {:induction false} ValueBack(x: nat, n: nat)
    requires x < Power(n)
    ensures Value(LittleEndian(x, n)) == x
    decreases n
  {
    if n > 0 {
      ValueBack(x / 256, n - 1);
      assert LittleEndian(x, n)[1..] == LittleEndian(x / 256, n - 1);
    }
  }

  lemma {:induction false} SliceOf(s: seq<byte>, t: seq<byte>, x: nat, y: nat)
    requires x <= y
    ensures y <= |s| ==> (s + t)[x..y] == s[x..y]
    ensures x == |s| && y == |s| + |t| ==> (s + t)[x..y] == t
  {
  }

  lemma {:induction false} WordAt(xs: seq<int>, i: nat)
    requires i < |xs|
    ensures WordBytes(xs)[WORDSIZE * i..WORDSIZE * i + WORDSIZE] == LittleEndian(xs[i], WORDSIZE)
  {
    var rest, x := xs[..|xs| - 1], xs[|xs| - 1];
    SliceOf(WordBytes(rest), LittleEndian(x, WORDSIZE), WORDSIZE * i, WORDSIZE * i + WORDSIZE);
    if i < |rest| {
      WordAt(rest, i);
    }
  }

  lemma {:induction false} WordFits(x: nat)
    requires x < UINT64_LIMIT
    ensures Value(LittleEndian(x, WORDSIZE)) == x
  {
    assert Power(8) == UINT64_LIMIT;
    ValueBack(x, WORDSIZE);
  }

  lemma {:induction false} ReadsPart(mem: Memory, a: Abstract, r: nat, va: nat, s: seq<byte>, x: nat, y: nat)
    requires Reads(mem, a, r, va, s) && x <= y <= |s|
    ensures Reads(mem, a, r, va + x, s[x..y])
  {
    forall i: nat | i < y - x ensures ReadsByte(mem, a, r, va + x, i, s[x..y][i]) {
      assert ReadsByte(mem, a, r, va, x + i, s[x + i]);
    }
  }

  /** Entry `i` of the array at the stack pointer. */
  lemma {:induction false} PointerAt(mem: Memory, a: Abstract, r: nat, sp: nat, ptrs: seq<int>, i: nat, x: nat)
    requires Reads(mem, a, r, sp, WordBytes(ptrs)) && i < |ptrs| && x == WORDSIZE * i
    ensures Reads(mem, a, r, sp + x, LittleEndian(ptrs[i], WORDSIZE))
  {
    WordAt(ptrs, i);
    ReadsPart(mem, a, r, sp, WordBytes(ptrs), x, x + WORDSIZE);
  }

  lemma {:induction false} ArgPtrRange(sz: nat, args: seq<seq<byte>>, i: nat)
    requires i < |args|
    ensures ArgPtrs(sz, args)[i] == ArgPtr(sz, args, i) <= sz && ArgPtrs(sz, args)[|args|] == 0
  {
    ArgSpDown(sz, args, 0, i + 1);
    assert args[..0] == [];
  }

  /** The program finds at its stack pointer an array whose entry `i` points to argument
      `i` as a C string, and whose last entry is null. */
  lemma {:induction false} ProgramFindsArguments(mem: Memory, a: Abstract, r: nat, sz: nat, args: seq<seq<byte>>,
      sp: nat, i: nat)
    returns (word: seq<byte>)
    requires StackSet(mem, a, r, sz, args, sp) && i <= |args| && sz <= MAXVA && (i < |args| ==> ArgOk(args[i]))
    ensures |word| == WORDSIZE && Reads(mem, a, r, sp + WORDSIZE * i, word)
    ensures i == |args| ==> Value(word) == 0
    ensures i < |args| ==> StringAt(mem, a, r, Value(word), args[i] + [0])
  {
    var ptrs, x := ArgPtrs(sz, args), WORDSIZE * i;
    PointerAt(mem, a, r, sp, ptrs, i, x);
    word := LittleEndian(ptrs[i], WORDSIZE);
    if i < |args| {
      assert ArgAt(mem, a, r, sz, args, i);
      ArgPtrRange(sz, args, i);
      ArgString(mem, a, r, ptrs[i], args[i]);
    }
    WordFits(ptrs[i]);
  }

  lemma {:induction false} ArgString(mem: Memory, a: Abstract, r: nat, va: nat, arg: seq<byte>)
    requires Reads(mem, a, r, va, arg + [0]) && ArgOk(arg)
    ensures StringAt(mem, a, r, va, arg + [0])
  {
    assert forall i :: 0 <= i < |arg| ==> (arg + [0])[i] == arg[i] && arg[i] in arg;
  }

  /** The whole stack; fails exactly if it does not fit into its page. */
  method SetStack(k: PhysicalMemory, r: nat, sz: nat, args: seq<seq<byte>>, ghost b: seq<byte>, ghost m0: Memory,
      ghost a0: Abstract, ghost f0: nat)
    returns (ok: bool, sp: nat)
    requires k.Valid() && Inv(m0, f0, k.lo, a0) && Ready(k.mem, k.a, r, sz, b, m0, a0)
    requires |args| < MAXARG && forall i :: 0 <= i < |args| ==> ArgOk(args[i])
    modifies k`mem
    ensures k.Valid() && Ready(k.mem, k.a, r, sz, b, m0, a0)
    ensures ok <==> FinalSp(sz, args) >= sz - PGSIZE
    ensures ok ==> StackSet(k.mem, k.a, r, sz, args, sp)
  {
    var ustack;
    ok, sp, ustack := PushArgs(k, r, sz, args, b, m0, a0, f0);
    if !ok {
      return;
    }
    ok, sp := PushPointers(k, r, sz, args, sp, ustack + [0], b, m0, a0, f0);
  }

  /** The array of pointers, below the strings. */
  method PushPointers(k: PhysicalMemory, r: nat, sz: nat, ghost args: seq<seq<byte>>, top: nat, ustack: seq<int>,
      ghost b: seq<byte>,
      ghost m0: Memory, ghost a0: Abstract, ghost f0: nat)
    returns (ok: bool, sp: nat)
    requires k.Valid() && Inv(m0, f0, k.lo, a0) && Ready(k.mem, k.a, r, sz, b, m0, a0)
    requires |args| < MAXARG && ustack == ArgPtrs(sz, args) && sz - PGSIZE <= top == ArgSp(sz, args)
    requires ArgsAt(k.mem, k.a, r, sz, args, |args|)
    modifies k`mem
    ensures k.Valid() && Ready(k.mem, k.a, r, sz, b, m0, a0)
    ensures ok <==> FinalSp(sz, args) >= sz - PGSIZE
    ensures ok ==> StackSet(k.mem, k.a, r, sz, args, sp)
  {
    ArgSpDown(sz, args, 0, |args|);
    assert args[..|args|] == args && args[..0] == [];
    sp := top - |ustack| * WORDSIZE;
    sp := sp - sp % 16;
    assert |ustack| == |args| + 1 && sp == FinalSp(sz, args);
    if sp < sz - PGSIZE {
      return false, sp;
    }
    assert sp + |WordBytes(ustack)| <= top <= sz;
    Push(k, r, sz, sp, WordBytes(ustack), b, m0, a0, f0);
    ArgsApart(old(k.mem), k.mem, k.a, r, sz, args, |args|, sp, WordBytes(ustack));
    ok := true;
  }

  // exec

  /** Space `was` has made way for space `now` of `n` pages, built from free pages; its
      own pages are free again, and nothing else has changed. */
  ghost predicate Replaced(m: Memory, m': Memory, a: Abstract, a': Abstract, was: nat, now: nat, n: nat) {
    && was in a.spaces && now !in a.spaces && a'.spaces.Keys == a.spaces.Keys - {was} + {now}
    && (forall r :: r in a.spaces && r != was ==> a'.spaces[r] == a.spaces[r])
    && a'.uses.Keys == a.uses.Keys
    && (forall p: nat {:trigger a'.uses[p]} :: p in a.uses ==>
         if StructureOf(a.uses[p], was) then a'.uses[p].Free? else PageGrew(a.uses[p], a'.uses[p], now, 0, n))
    && (forall p: nat {:trigger PageKept(m, m', p)} ::
           p in a.uses && Held(a.uses[p]) && !StructureOf(a.uses[p], was) ==> PageKept(m, m', p))
  }

  lemma {:induction false} CreatedThenDissolved(m0: Memory, m1: Memory, m2: Memory, a0: Abstract, a1: Abstract,
      a2: Abstract, was: nat, now: nat, n: nat)
    requires Created(m0, m1, a0, a1, now, n) && Dissolved(m1, m2, a1, a2, was) && was in a0.spaces
    ensures Replaced(m0, m2, a0, a2, was, now, n)
  {
    forall p: nat | p in a0.uses ensures
        if StructureOf(a0.uses[p], was) then a2.uses[p].Free? else PageGrew(a0.uses[p], a2.uses[p], now, 0, n)
    {
      assert PageGrew(a0.uses[p], a1.uses[p], now, 0, n);
      assert if StructureOf(a1.uses[p], was) then a2.uses[p].Free? else a2.uses[p] == a1.uses[p];
    }
    forall p: nat | p in a0.uses && Held(a0.uses[p]) && !StructureOf(a0.uses[p], was) ensures PageKept(m0, m2, p) {
      assert PageGrew(a0.uses[p], a1.uses[p], now, 0, n);
      assert PageKept(m0, m1, p) && PageKept(m1, m2, p);
    }
  }

  /** The arguments and the pointers to them fit into the stack page of an image of `sz` bytes. */
  predicate ArgsFit(sz: nat, args: seq<seq<byte>>) {
    FinalSp(sz, args) >= sz - PGSIZE
  }

  /** The pages of the image with its guard page and its stack. */
  function ImagePages(segs: seq<Segment>): nat {
    PageCount(ImageSize(segs)) + 2
  }

  /** Space `r` holds the program: its bytes, each page with its permissions, and the arguments on the
      stack. */
  ghost predicate NewImage(mem: Memory, a: Abstract, r: nat, segs: seq<Segment>, args: seq<seq<byte>>, sp: nat) {
    && AllLoadable(segs) && Stacked(a, r, ImagePages(segs) * PGSIZE) && SegsMapped(a, r, segs, |segs|)
    && Reads(mem, a, r, 0, ImageBytes(segs)) && StackSet(mem, a, r, ImagePages(segs) * PGSIZE, args, sp)
  }

  /** The headers are acceptable, and there is memory for the image and room for the arguments. */
  ghost predicate CanBuild(a: Abstract, r: nat, segs: seq<Segment>, args: seq<seq<byte>>)
    requires r in a.spaces
  {
    && AllLoadable(segs) && Affords(a, r, 0, ImagePages(segs)) && ArgsFit(ImagePages(segs) * PGSIZE, args)
  }

  /** Builds the image from the program headers, then its stack. */
  method Build(k: PhysicalMemory, r: nat, segs: seq<Segment>, args: seq<seq<byte>>, ghost m0: Memory,
      ghost a0: Abstract, ghost f0: nat)
    returns (ok: bool, sz: nat, sp: nat)
    requires k.Valid() && Inv(m0, f0, k.lo, a0) && Loading(k.mem, k.a, r, 0, m0, a0)
    requires |args| < MAXARG && forall i :: 0 <= i < |args| ==> ArgOk(args[i])
    modifies k
    ensures k.Valid() && Partial(k.mem, k.a, r, sz, m0, a0)
    ensures ok <==> CanBuild(old(k.a), r, segs, args)
    ensures ok ==> sz == ImagePages(segs) * PGSIZE && NewImage(k.mem, k.a, r, segs, args, sp)
  {
    sp := 0;
    ok, sz := BuildImage(k, r, segs, ImagePages(segs), m0, a0, f0);
    if ok {
      ghost var a1 := k.a;
      ok, sp := SetStack(k, r, sz, args, ImageBytes(segs), m0, a0, f0);
    }
  }

  /** The image with an empty stack, `all` pages. */
  method BuildImage(k: PhysicalMemory, r: nat, segs: seq<Segment>, ghost all: nat, ghost m0: Memory,
      ghost a0: Abstract, ghost f0: nat)
    returns (ok: bool, sz: nat)
    requires k.Valid() && Inv(m0, f0, k.lo, a0) && Loading(k.mem, k.a, r, 0, m0, a0) && all == ImagePages(segs)
    modifies k
    ensures k.Valid() && Partial(k.mem, k.a, r, sz, m0, a0)
    ensures ok <==> AllLoadable(segs) && Affords(old(k.a), r, 0, all)
    ensures ok ==> sz == all * PGSIZE && SegsMapped(k.a, r, segs, |segs|)
    ensures ok ==> Ready(k.mem, k.a, r, sz, ImageBytes(segs), m0, a0)
  {
    ok, sz := LoadAll(k, r, segs, m0, a0, f0);
    var n := PageCount(ImageSize(segs));
    if !ok {
      if Affords(old(k.a), r, 0, all) {
        AffordsLess(old(k.a), r, n, all);
      }
      return;
    }
    ghost var b := ImageBytes(segs);
    ok, sz := StackOnSegs(k, r, sz, n, all, segs, b, m0, a0, f0, old(k.a));
  }

  /** The segments stay below the stack. */
  method StackOnSegs(k: PhysicalMemory, r: nat, sz0: nat, n: nat, ghost all: nat, ghost segs: seq<Segment>,
      ghost b: seq<byte>, ghost m0: Memory, ghost a0: Abstract, ghost f0: nat, ghost a1: Abstract)
    returns (ok: bool, sz: nat)
    requires k.Valid() && Inv(m0, f0, k.lo, a0) && Loading(k.mem, k.a, r, sz0, m0, a0) && ImageIs(k.mem, k.a, r, sz0, b)
    requires sz0 == ImageSize(segs) && n == PageCount(sz0) && all == n + 2 && PaidFor(a1, k.a, r, 0, n, n)
    requires SegsMapped(k.a, r, segs, |segs|)
    modifies k
    ensures k.Valid() && Partial(k.mem, k.a, r, sz, m0, a0)
    ensures ok <==> Affords(a1, r, 0, all)
    ensures ok ==> sz == all * PGSIZE && Ready(k.mem, k.a, r, sz, b, m0, a0)
    ensures ok ==> SegsMapped(k.a, r, segs, |segs|)
  {
    ghost var a2 := k.a;
    ok, sz := StackOnTop(k, r, sz0, n, all, b, m0, a0, f0, a1);
    if ok {
      SegsKeptAll(a2, k.a, r, segs, n, all);
    }
  }

  lemma {:induction false} SegsKeptAll(a: Abstract, a': Abstract, r: nat, segs: seq<Segment>, x: nat, y: nat)
    requires SegsMapped(a, r, segs, |segs|) && x == PageCount(ImageSize(segs)) && r in a.spaces && r in a'.spaces
    requires LeafKept(a.spaces[r].leaf, a'.spaces[r].leaf, x, y)
    ensures SegsMapped(a', r, segs, |segs|)
  {
    assert segs[..|segs|] == segs;
    SegsKept(a, a', r, segs, |segs|, x, y);
  }

  /** The stack on top of the segments, in terms of the memory before them. */
  method StackOnTop(k: PhysicalMemory, r: nat, sz0: nat, n: nat, ghost all: nat, ghost b: seq<byte>,
      ghost m0: Memory, ghost a0: Abstract, ghost f0: nat, ghost a1: Abstract)
    returns (ok: bool, sz: nat)
    requires k.Valid() && Inv(m0, f0, k.lo, a0) && Loading(k.mem, k.a, r, sz0, m0, a0) && ImageIs(k.mem, k.a, r, sz0, b)
    requires n == PageCount(sz0) && all == n + 2 && PaidFor(a1, k.a, r, 0, n, n)
    modifies k
    ensures k.Valid() && Partial(k.mem, k.a, r, sz, m0, a0)
    ensures ok <==> Affords(a1, r, 0, all)
    ensures ok ==> sz == all * PGSIZE && Ready(k.mem, k.a, r, sz, b, m0, a0)
    ensures ok ==> LeafKept(old(k.a).spaces[r].leaf, k.a.spaces[r].leaf, n, all)
  {
    AffordsOn(a1, k.a, r, n, all);
    ok, sz := AddStack(k, r, sz0, n, all, b, m0, a0, f0);
  }

  /** What the trapframe of the thread that called exec gets. */
  class Registers {
    var epc: nat
    var sp: nat
    var a1: nat
  }

  /** The pages that an image of `n` pages takes: themselves, the root, and all other tables. */
  ghost function ImageCost(n: nat): nat {
    n + 3 + |Paths(0, n) - TopNodes()|
  }

  /** exec can succeed: every header is acceptable, the arguments fit, and there are enough free pages. */
  ghost predicate Executable(a: Abstract, segs: seq<Segment>, args: seq<seq<byte>>) {
    && AllLoadable(segs) && |a.free| >= ImageCost(ImagePages(segs)) && ArgsFit(ImagePages(segs) * PGSIZE, args)
  }

  lemma {:induction false} CanExec(a0: Abstract, a: Abstract, r: nat, segs: seq<Segment>, args: seq<seq<byte>>)
    requires r in a.spaces && NodesOf(a, r) == TopNodes() && |a.free| + 3 == |a0.free|
    ensures CanBuild(a, r, segs, args) <==> Executable(a0, segs, args)
  {
  }

  /** exec: the process gets the new image, with its segments and its arguments in place and their
      permissions set, and the pages of the old one become free; or it fails, and the process and every page
      in use are as before.  It fails exactly if a header is not acceptable, the arguments do not fit, or
      there are not enough free pages. */
  method Exec(k: PhysicalMemory, p: Process, regs: Registers, trampoline: nat, trapframe: nat, entry: nat,
      segs: seq<Segment>, args: seq<seq<byte>>)
      returns (res: int)
    requires ProcessOk(k, p)
    requires |args| < MAXARG && forall i :: 0 <= i < |args| ==> ArgOk(args[i])
    modifies k, p, regs
    ensures ProcessOk(k, p) && (res == |args| || res == -1)
    ensures res >= 0 <==> Executable(old(k.a), segs, args)
    ensures res == -1 ==> unchanged(p) && unchanged(regs) && Restored(old(k.mem), k.mem, old(k.a), k.a)
    ensures res >= 0 ==> Replaced(old(k.mem), k.mem, old(k.a), k.a, old(p.pagetable), p.pagetable, PageCount(p.sz))
    ensures res >= 0 ==> p.sz == ImagePages(segs) * PGSIZE && NewImage(k.mem, k.a, p.pagetable, segs, args, regs.sp)
    ensures res >= 0 ==> regs.a1 == regs.sp && regs.epc == entry
  {
    var r := ProcPagetable(k, trampoline, trapframe);
    if r == 0 {
      RestoredOk(old(k.mem), k.mem, old(k.a), k.a, p);
      return -1;
    }
    CanExec(old(k.a), k.a, r, segs, args);
    var ok, sp := Replace(k, p, r, segs, args, old(k.mem), old(k.a), old(k.freelist));
    if !ok {
      return -1;
    }
    regs.a1, regs.epc, regs.sp := sp, entry, sp;
    return |args|;
  }

  /** exec, once it has a page table: builds the image and commits to it, or gives everything back. */
  method Replace(k: PhysicalMemory, p: Process, r: nat, segs: seq<Segment>, args: seq<seq<byte>>, ghost m0: Memory,
      ghost a0: Abstract, ghost f0: nat)
    returns (ok: bool, sp: nat)
    requires k.Valid() && Inv(m0, f0, k.lo, a0) && Loading(k.mem, k.a, r, 0, m0, a0)
    requires Dense(a0, p.pagetable, PageCount(p.sz)) && TopsOk(a0, p.pagetable)
    requires |args| < MAXARG && forall i :: 0 <= i < |args| ==> ArgOk(args[i])
    modifies k, p
    ensures ProcessOk(k, p)
    ensures ok <==> CanBuild(old(k.a), r, segs, args)
    ensures !ok ==> unchanged(p) && Restored(m0, k.mem, a0, k.a)
    ensures ok ==> p.pagetable == r && Replaced(m0, k.mem, a0, k.a, old(p.pagetable), r, PageCount(p.sz))
    ensures ok ==> p.sz == ImagePages(segs) * PGSIZE && NewImage(k.mem, k.a, r, segs, args, sp)
  {
    var sz;
    ok, sz, sp := Build(k, r, segs, args, m0, a0, f0);
    ghost var m1, a1 := k.mem, k.a;
    if !ok {
      ProcFreePagetable(k, r, sz);
      CreatedDissolved(k.lo, f0, m0, m1, k.mem, a0, a1, k.a, r, PageCount(sz));
      RestoredOk(m0, k.mem, a0, k.a, p);
      return;
    }
    Commit(k, p, r, sz, args, sp, ImageBytes(segs), m0, a0);
    SegsSame(a1, k.a, r, segs);
  }

  lemma {:induction false} SegsSame(a: Abstract, a': Abstract, r: nat, segs: seq<Segment>)
    requires SegsMapped(a, r, segs, |segs|) && r in a.spaces && r in a'.spaces && a'.spaces[r] == a.spaces[r]
    ensures SegsMapped(a', r, segs, |segs|)
  {
    var n := PageCount(ImageSize(segs[..|segs|]));
    SegsKept(a, a', r, segs, |segs|, n, n);
  }

  /** Commits to the new image, and frees the old one. */
  method Commit(k: PhysicalMemory, p: Process, r: nat, sz: nat, ghost args: seq<seq<byte>>, ghost sp: nat,
      ghost b: seq<byte>, ghost m0: Memory, ghost a0: Abstract)
    requires k.Valid() && Created(m0, k.mem, a0, k.a, r, PageCount(sz)) && Stacked(k.a, r, sz)
    requires Reads(k.mem, k.a, r, 0, b) && StackSet(k.mem, k.a, r, sz, args, sp)
    requires Dense(a0, p.pagetable, PageCount(p.sz)) && TopsOk(a0, p.pagetable)
    modifies k, p
    ensures p.pagetable == r && p.sz == sz && ProcessOk(k, p) && Stacked(k.a, r, sz)
    ensures Replaced(m0, k.mem, a0, k.a, old(p.pagetable), r, PageCount(sz))
    ensures Reads(k.mem, k.a, r, 0, b) && StackSet(k.mem, k.a, r, sz, args, sp)
    ensures r in old(k.a).spaces && r in k.a.spaces && k.a.spaces[r] == old(k.a).spaces[r]
  {
    ghost var m1, a1 := k.mem, k.a;
    var was, oldsz := p.pagetable, p.sz;
    p.pagetable, p.sz := r, sz;
    ProcFreePagetable(k, was, oldsz);
    CreatedThenDissolved(m0, m1, k.mem, a0, a1, k.a, was, r, PageCount(sz));
    StackedKept(a1, k.a, r, sz);
    WholePages(sz / PGSIZE);
    ReadsDissolved(m1, k.mem, a1, k.a, was, r, 0, b);
    StackDissolved(m1, k.mem, a1, k.a, was, r, sz, args, sp);
  }

  /** The bytes of another space survive. */
  lemma {:induction false} ReadsDissolved(m: Memory, m': Memory, a: Abstract, a': Abstract, was: nat, r: nat, va: nat,
      s: seq<byte>)
    requires Dissolved(m, m', a, a', was) && r != was && Reads(m, a, r, va, s)
    ensures Reads(m', a', r, va, s)
  {
    forall i: nat | i < |s| ensures ReadsByte(m', a', r, va, i, s[i]) {
      assert ReadsByte(m, a, r, va, i, s[i]);
      var p := a.spaces[r].leaf[(va + i) / PGSIZE].ppn;
      assert PageKept(m, m', p) && a'.uses[p] == a.uses[p];
    }
  }

  lemma {:induction false} StackDissolved(m: Memory, m': Memory, a: Abstract, a': Abstract, was: nat, r: nat, sz: nat,
      args: seq<seq<byte>>, sp: nat)
    requires Dissolved(m, m', a, a', was) && r != was && StackSet(m, a, r, sz, args, sp)
    ensures StackSet(m', a', r, sz, args, sp)
  {
    forall i: nat | i < |args| ensures ArgAt(m', a', r, sz, args, i) {
      assert ArgAt(m, a, r, sz, args, i);
      ReadsDissolved(m, m', a, a', was, r, ArgPtr(sz, args, i), args[i] + [0]);
    }
    ReadsDissolved(m, m', a, a', was, r, sp, WordBytes(ArgPtrs(sz, args)));
  }

  lemma {:induction false} StackedKept(a: Abstract, a': Abstract, r: nat, sz: nat)
    requires Stacked(a, r, sz) && r in a'.spaces && a'.spaces[r] == a.spaces[r]
    ensures Stacked(a', r, sz)
  {
    forall v: nat | v < sz / PGSIZE - 2 ensures Accessible(a', r, v) {
      assert Accessible(a, r, v);
    }
  }

  lemma {:induction false} RestoredOk(m: Memory, m': Memory, a: Abstract, a': Abstract, p: Process)
    requires Restored(m, m', a, a') && Dense(a, p.pagetable, PageCount(p.sz)) && TopsOk(a, p.pagetable)
    ensures Dense(a', p.pagetable, PageCount(p.sz)) && TopsOk(a', p.pagetable)
  {
  }
}
