/** Copies between the kernel and user memory (walkaddr, copyout, copyin and copyinstr
    in kernel/vm.c), against a flat view of the memory of an address space. */
module UserCopy {
  import opened Common
  import opened Blocks
  import opened PageTables
  import opened Vm
  import opened UserMemory

  predicate HasU(flags: nat) {
    flags / 16 % 2 == 1
  }

  /** User access reaches page `v`. */
  ghost predicate Accessible(a: Abstract, r: nat, v: nat) {
    r in a.spaces && v in a.spaces[r].leaf && HasU(a.spaces[r].leaf[v].flags)
  }

  /** Neither the trapframe nor the trampoline is open to user access. */
  ghost predicate UserOnly(a: Abstract, r: nat) {
    r in a.spaces && forall v: nat {:trigger Accessible(a, r, v)} :: Accessible(a, r, v) ==> v < TRAPFRAME
  }

  ghost predicate PageReady(mem: Memory, a: Abstract, r: nat, v: nat) {
    && r in a.spaces && v in a.spaces[r].leaf
    && var p := a.spaces[r].leaf[v].ppn;
       p in a.uses && a.uses[p] == User(r, v) && p < |mem| && mem[p].Data? && |mem[p].bytes| == PGSIZE
  }

  /** The flat memory of space `r`: the byte at a virtual address. */
  ghost function ByteAt(mem: Memory, a: Abstract, r: nat, va: nat): byte
    requires PageReady(mem, a, r, va / PGSIZE)
  {
    mem[a.spaces[r].leaf[va / PGSIZE].ppn].bytes[va % PGSIZE]
  }

  /** A byte that user access can reach. */
  ghost predicate Open(mem: Memory, a: Abstract, r: nat, va: nat) {
    Accessible(a, r, va / PGSIZE) && PageReady(mem, a, r, va / PGSIZE)
  }

  lemma {:induction false} AccessibleReady(k: PhysicalMemory, r: nat, v: nat)
    requires k.Valid() && UserOnly(k.a, r) && Accessible(k.a, r, v)
    ensures PageReady(k.mem, k.a, r, v) && k.a.spaces[r].leaf[v].ppn != 0
  {
    UserPageData(k.mem, k.freelist, k.lo, k.a, r, v);
  }

  /** walkaddr: the physical page at a virtual page, 0 unless users may access it. */
  method Walkaddr(k: PhysicalMemory, r: nat, v: nat) returns (p: nat)
    requires k.Valid() && UserOnly(k.a, r)
    ensures p == if Accessible(k.a, r, v) then k.a.spaces[r].leaf[v].ppn else 0
    ensures p != 0 <==> Accessible(k.a, r, v)
    ensures p != 0 ==> PageReady(k.mem, k.a, r, v)
  {
    if Accessible(k.a, r, v) {
      AccessibleReady(k, r, v);
    }
    if v >= VPN_LIMIT {
      return 0;
    }
    var t := k.Walk(r, v);
    if t == 0 {
      Unmapped(k, r, v);
      return 0;
    }
    var pte := k.mem[t].pte[v % 512];
    if !IsValid(pte) {
      InvalidEntry(k, r, v, t);
      return 0;
    }
    ValidEntry(k, r, v, t);
    k.MappedEntry(r, v, t);
    if !HasU(FlagsOf(pte)) {
      return 0;
    }
    return PpnOf(pte);
  }

  lemma {:induction false} Unmapped(k: PhysicalMemory, r: nat, v: nat)
    requires k.Valid() && r in k.a.spaces && k.Bottom(r, v, 0)
    ensures v !in k.a.spaces[r].leaf
  {
    var sp := k.a.spaces[r];
    assert SpaceOk(k.mem, k.a.uses, r, sp);
    assert (0, v / 512) in sp.node ==> NodeOk(k.mem, k.a.uses, r, sp, 0, v / 512);
    assert v in sp.leaf ==> LeafOk(k.a.uses, r, sp, v);
  }

  lemma {:induction false} InvalidEntry(k: PhysicalMemory, r: nat, v: nat, t: nat)
    requires k.Valid() && r in k.a.spaces && k.Bottom(r, v, t) && t != 0 && !IsValid(k.mem[t].pte[v % 512])
    ensures v !in k.a.spaces[r].leaf
  {
    assert SpaceOk(k.mem, k.a.uses, r, k.a.spaces[r]);
    assert v in k.a.spaces[r].leaf ==> LeafOk(k.a.uses, r, k.a.spaces[r], v);
  }

  lemma {:induction false} ValidEntry(k: PhysicalMemory, r: nat, v: nat, t: nat)
    requires k.Valid() && r in k.a.spaces && k.Bottom(r, v, t) && t != 0 && IsValid(k.mem[t].pte[v % 512])
    ensures v in k.a.spaces[r].leaf
  {
  }

  // copyin

  ghost predicate OpenFrom(mem: Memory, a: Abstract, r: nat, va: nat, i: nat) {
    Open(mem, a, r, va + i)
  }

  /** User access can reach `len` bytes from `va` on. */
  ghost predicate AllOpen(mem: Memory, a: Abstract, r: nat, va: nat, len: nat) {
    forall i: nat :: i < len ==> OpenFrom(mem, a, r, va, i)
  }

  ghost predicate ReadsByte(mem: Memory, a: Abstract, r: nat, va: nat, i: nat, x: byte) {
    Open(mem, a, r, va + i) && ByteAt(mem, a, r, va + i) == x
  }

  /** The bytes from `va` on, all open, are `s`. */
  ghost predicate Reads(mem: Memory, a: Abstract, r: nat, va: nat, s: seq<byte>) {
    forall i: nat {:trigger ReadsByte(mem, a, r, va, i, s[i])} :: i < |s| ==> ReadsByte(mem, a, r, va, i, s[i])
  }

  lemma {:induction false} ReadsOpen(mem: Memory, a: Abstract, r: nat, va: nat, s: seq<byte>)
    requires Reads(mem, a, r, va, s)
    ensures AllOpen(mem, a, r, va, |s|)
  {
    forall i: nat | i < |s| ensures OpenFrom(mem, a, r, va, i) {
      assert ReadsByte(mem, a, r, va, i, s[i]);
    }
  }

  /** `n` bytes within the page at `va` follow those read before. */
  lemma {:induction false} ReadsOn(mem: Memory, a: Abstract, r: nat, srcva: nat, s: seq<byte>, va: nat, n: nat)
    requires Reads(mem, a, r, srcva, s) && va == srcva + |s| && Open(mem, a, r, va) && va % PGSIZE + n <= PGSIZE
    ensures Reads(mem, a, r, srcva, s + mem[a.spaces[r].leaf[va / PGSIZE].ppn].bytes[va % PGSIZE..va % PGSIZE + n])
  {
    var t := s + mem[a.spaces[r].leaf[va / PGSIZE].ppn].bytes[va % PGSIZE..va % PGSIZE + n];
    forall i: nat | i < |t| ensures ReadsByte(mem, a, r, srcva, i, t[i]) {
      if i < |s| {
        assert ReadsByte(mem, a, r, srcva, i, s[i]);
      } else {
        InPage(va, i - |s|);
      }
    }
  }

  lemma {:induction false} InPage(va: nat, i: nat)
    requires va % PGSIZE + i < PGSIZE
    ensures (va + i) / PGSIZE == va / PGSIZE && (va + i) % PGSIZE == va % PGSIZE + i
  {
  }

  /** Copies `len` bytes from user memory; fails exactly if one of them is out of
      reach. */
  method Copyin(k: PhysicalMemory, r: nat, srcva: nat, len: nat) returns (res: int, dst: seq<byte>)
    requires k.Valid() && UserOnly(k.a, r)
    ensures res == if AllOpen(k.mem, k.a, r, srcva, len) then 0 else -1
    ensures res == 0 ==> |dst| == len
    ensures Reads(k.mem, k.a, r, srcva, dst)
  {
    dst := [];
    while |dst| < len
      invariant |dst| <= len && Reads(k.mem, k.a, r, srcva, dst)
    {
      var va := srcva + |dst|;
      var p := Walkaddr(k, r, va / PGSIZE);
      if p == 0 {
        assert !OpenFrom(k.mem, k.a, r, srcva, |dst|);
        return -1, dst;
      }
      var n := Min(PGSIZE - va % PGSIZE, len - |dst|);
      ReadsOn(k.mem, k.a, r, srcva, dst, va, n);
      dst := dst + k.mem[p].bytes[va % PGSIZE..va % PGSIZE + n];
    }
    ReadsOpen(k.mem, k.a, r, srcva, dst);
    return 0, dst;
  }

  // copyinstr

  /** `s` is a string at `va`: bytes other than NUL and then a NUL. */
  ghost predicate StringAt(mem: Memory, a: Abstract, r: nat, va: nat, s: seq<byte>) {
    |s| > 0 && Reads(mem, a, r, va, s) && s[|s| - 1] == 0 && forall i :: 0 <= i < |s| - 1 ==> s[i] != 0
  }

  /** Copies a string of at most `max` bytes, NUL included; succeeds exactly if there
      is one. */
  method Copyinstr(k: PhysicalMemory, r: nat, srcva: nat, max: nat) returns (res: int, dst: seq<byte>)
    requires k.Valid() && UserOnly(k.a, r)
    ensures res == 0 || res == -1
    ensures res == 0 ==> |dst| <= max && StringAt(k.mem, k.a, r, srcva, dst)
    ensures res == -1 ==> !exists s: seq<byte> :: |s| <= max && StringAt(k.mem, k.a, r, srcva, s)
  {
    dst := [];
    var gotNull := false;
    while !gotNull && |dst| < max
      invariant |dst| <= max && Reads(k.mem, k.a, r, srcva, dst)
      invariant if gotNull then StringAt(k.mem, k.a, r, srcva, dst) else 0 !in dst
      decreases if gotNull then 0 else 1, max - |dst|
    {
      var va := srcva + |dst|;
      var p := Walkaddr(k, r, va / PGSIZE);
      if p == 0 {
        NoString(k.mem, k.a, r, srcva, dst, max, true);
        return -1, dst;
      }
      var n := Min(PGSIZE - va % PGSIZE, max - |dst|);
      gotNull, dst := CopyUntilNull(k, r, srcva, dst, p, va, n);
    }
    if gotNull {
      return 0, dst;
    }
    NoString(k.mem, k.a, r, srcva, dst, max, false);
    return -1, dst;
  }

  /** The inner loop: up to `n` bytes of one page. */
  method CopyUntilNull(k: PhysicalMemory, r: nat, ghost srcva: nat, s: seq<byte>, p: nat, va: nat, n: nat)
      returns (gotNull: bool, dst: seq<byte>)
    requires k.Valid() && Reads(k.mem, k.a, r, srcva, s) && 0 !in s && va == srcva + |s| && Open(k.mem, k.a, r, va)
    requires p == k.a.spaces[r].leaf[va / PGSIZE].ppn && 0 < n && va % PGSIZE + n <= PGSIZE
    ensures Reads(k.mem, k.a, r, srcva, dst) && |dst| <= |s| + n
    ensures if gotNull then StringAt(k.mem, k.a, r, srcva, dst) else 0 !in dst && |dst| == |s| + n
  {
    ghost var page := k.mem[p].bytes;
    var o, j := va % PGSIZE, 0;
    dst := s;
    while j < n
      invariant j <= n && dst == s + page[o..o + j] && 0 !in dst
      invariant Reads(k.mem, k.a, r, srcva, dst)
    {
      ReadsOn(k.mem, k.a, r, srcva, s, va, j + 1);
      assert s + page[o..o + j + 1] == dst + [page[o + j]];
      dst := dst + [k.mem[p].bytes[o + j]];
      if k.mem[p].bytes[o + j] == 0 {
        return true, dst;
      }
      j := j + 1;
    }
    gotNull := false;
  }

  lemma {:induction false} NoString(mem: Memory, a: Abstract, r: nat, va: nat, dst: seq<byte>, max: nat, stuck: bool)
    requires Reads(mem, a, r, va, dst) && 0 !in dst
    requires if stuck then !Open(mem, a, r, va + |dst|) else |dst| >= max
    ensures !exists s: seq<byte> :: |s| <= max && StringAt(mem, a, r, va, s)
  {
    forall s: seq<byte> | 0 < |s| <= max && Reads(mem, a, r, va, s) ensures s[|s| - 1] != 0 {
      assert |s| > |dst| ==> ReadsByte(mem, a, r, va, |dst|, s[|dst|]);
      var i := |s| - 1;
      assert ReadsByte(mem, a, r, va, i, s[i]) && ReadsByte(mem, a, r, va, i, dst[i]);
      assert dst[i] in dst;
    }
  }

  ghost predicate NulAt(mem: Memory, a: Abstract, r: nat, va: nat, i: nat) {
    ReadsByte(mem, a, r, va, i, 0)
  }

  /** Where `max` bytes are open, there is a string within them exactly if one of them
      is NUL. */
  lemma {:induction false} StringIffNul(mem: Memory, a: Abstract, r: nat, va: nat, max: nat)
    requires AllOpen(mem, a, r, va, max)
    ensures (exists s: seq<byte> :: |s| <= max && StringAt(mem, a, r, va, s)) <==>
        (exists i: nat :: i < max && NulAt(mem, a, r, va, i))
  {
    if s: seq<byte> :| |s| <= max && StringAt(mem, a, r, va, s) {
      assert ReadsByte(mem, a, r, va, |s| - 1, s[|s| - 1]);
      assert NulAt(mem, a, r, va, |s| - 1);
    }
    if i: nat :| i < max && NulAt(mem, a, r, va, i) {
      var s := FirstString(mem, a, r, va, max, i);
    }
  }

  lemma {:induction false} FirstString(mem: Memory, a: Abstract, r: nat, va: nat, max: nat, i: nat)
      returns (s: seq<byte>)
    requires AllOpen(mem, a, r, va, max) && i < max && NulAt(mem, a, r, va, i)
    ensures |s| <= max && StringAt(mem, a, r, va, s)
  {
    s := [];
    var j := 0;
    while j < i
      invariant j <= i && |s| == j && 0 !in s && Reads(mem, a, r, va, s)
    {
      assert OpenFrom(mem, a, r, va, j);
      var x := ByteAt(mem, a, r, va + j);
      ReadsOne(mem, a, r, va, s, x);
      s := s + [x];
      if x == 0 {
        return;
      }
      j := j + 1;
    }
    ReadsOne(mem, a, r, va, s, 0);
    s := s + [0];
  }

  lemma {:induction false} ReadsOne(mem: Memory, a: Abstract, r: nat, va: nat, s: seq<byte>, x: byte)
    requires Reads(mem, a, r, va, s) && ReadsByte(mem, a, r, va, |s|, x)
    ensures Reads(mem, a, r, va, s + [x])
  {
    var t := s + [x];
    forall i: nat | i < |t| ensures ReadsByte(mem, a, r, va, i, t[i]) {
      if i < |s| {
        assert ReadsByte(mem, a, r, va, i, s[i]);
      }
    }
  }

  // copyout

  /** Page `p`, at `v`, with the part of `src` that falls into it when written at
      virtual address `va`. */
  ghost predicate PageWritten(m: Memory, m': Memory, p: nat, v: nat, va: nat, src: seq<byte>) {
    && p < |m| == |m'| && m[p].Data? && m'[p].Data? && |m[p].bytes| == |m'[p].bytes| == PGSIZE
    && forall j: nat :: j < PGSIZE ==>
         m'[p].bytes[j] == if va <= v * PGSIZE + j < va + |src| then src[v * PGSIZE + j - va] else m[p].bytes[j]
  }

  /** `src` has been written at `va` in space `r`, and nothing else. */
  ghost predicate Wrote(m: Memory, m': Memory, a: Abstract, r: nat, va: nat, src: seq<byte>) {
    && |m'| == |m|
    && (forall p: nat {:trigger m'[p]} ::
           p in a.uses && p < |m| && !(a.uses[p].User? && a.uses[p].root == r) ==> m'[p] == m[p])
    && (forall p: nat {:trigger PageWritten(m, m', p, a.uses[p].vpn, va, src)} ::
           p in a.uses && a.uses[p].User? && a.uses[p].root == r ==> PageWritten(m, m', p, a.uses[p].vpn, va, src))
  }

  lemma {:induction false} WroteNothing(k: PhysicalMemory, r: nat, va: nat)
    requires k.Valid()
    ensures Wrote(k.mem, k.mem, k.a, r, va, [])
  {
    forall p: nat | p in k.a.uses && k.a.uses[p].User? && k.a.uses[p].root == r
      ensures PageWritten(k.mem, k.mem, p, k.a.uses[p].vpn, va, [])
    {
      assert UseOk(k.mem, k.a, p);
    }
  }

  /** Writing the next `n` bytes, which lie in one page. */
  lemma {:induction false} WroteMore(k: PhysicalMemory, m0: Memory, r: nat, dstva: nat, src: seq<byte>, done: nat,
      n: nat, va: nat, bytes: seq<byte>)
    requires k.Valid() && done + n <= |src| && va == dstva + done && va % PGSIZE + n <= PGSIZE
    requires Open(k.mem, k.a, r, va)
    requires Wrote(m0, k.mem, k.a, r, dstva, src[..done])
    requires var p, o := k.a.spaces[r].leaf[va / PGSIZE].ppn, va % PGSIZE;
      bytes == k.mem[p].bytes[..o] + src[done..done + n] + k.mem[p].bytes[o + n..]
    ensures Wrote(m0, k.mem[k.a.spaces[r].leaf[va / PGSIZE].ppn := Data(bytes)], k.a, r, dstva, src[..done + n])
  {
    var q, v, o := k.a.spaces[r].leaf[va / PGSIZE].ppn, va / PGSIZE, va % PGSIZE;
    var m2 := k.mem[q := Data(bytes)];
    forall p: nat | p in k.a.uses && k.a.uses[p].User? && k.a.uses[p].root == r
      ensures PageWritten(m0, m2, p, k.a.uses[p].vpn, dstva, src[..done + n])
    {
      assert PageWritten(m0, k.mem, p, k.a.uses[p].vpn, dstva, src[..done]);
      assert UseOk(k.mem, k.a, p);
      var w := k.a.uses[p].vpn;
      assert p == q ==> w == v;
      assert p != q ==> w != v;
      forall j: nat | j < PGSIZE ensures m2[p].bytes[j] ==
          if dstva <= w * PGSIZE + j < dstva + done + n then src[w * PGSIZE + j - dstva] else m0[p].bytes[j]
      {
        assert va == v * PGSIZE + o;
      }
    }
  }

  ghost predicate AccessibleFrom(a: Abstract, r: nat, va: nat, i: nat) {
    Accessible(a, r, (va + i) / PGSIZE)
  }

  ghost predicate AllAccessible(a: Abstract, r: nat, va: nat, len: nat) {
    forall i: nat :: i < len ==> AccessibleFrom(a, r, va, i)
  }

  /** Copies to user memory; fails exactly if a byte is out of reach, having written
      what comes before that byte's page. */
  method Copyout(k: PhysicalMemory, r: nat, dstva: nat, src: seq<byte>) returns (res: int, ghost done: nat)
    requires k.Valid() && UserOnly(k.a, r)
    modifies k`mem
    ensures k.Valid() && done <= |src| && Wrote(old(k.mem), k.mem, k.a, r, dstva, src[..done])
    ensures res == if AllAccessible(k.a, r, dstva, |src|) then 0 else -1
    ensures res == 0 ==> done == |src| && Reads(k.mem, k.a, r, dstva, src)
    ensures res == -1 ==> done < |src| && !AccessibleFrom(k.a, r, dstva, done)
  {
    WroteNothing(k, r, dstva);
    assert src[..0] == [];
    var i := 0;
    while i < |src|
      invariant i <= |src| && k.Valid() && Wrote(old(k.mem), k.mem, k.a, r, dstva, src[..i])
      invariant AllAccessible(k.a, r, dstva, i)
    {
      var n := CopyoutPart(k, r, dstva, src, i, old(k.mem));
      if n == 0 {
        return -1, i;
      }
      i := i + n;
    }
    assert src[..i] == src;
    WroteReads(k, old(k.mem), r, dstva, src);
    return 0, i;
  }

  /** One turn of the loop: bytes of one page, none if it is out of reach. */
  method CopyoutPart(k: PhysicalMemory, r: nat, dstva: nat, src: seq<byte>, i: nat, ghost m0: Memory) returns (n: nat)
    requires k.Valid() && UserOnly(k.a, r) && i < |src| && Wrote(m0, k.mem, k.a, r, dstva, src[..i])
    requires AllAccessible(k.a, r, dstva, i)
    modifies k`mem
    ensures k.Valid() && i + n <= |src| && Wrote(m0, k.mem, k.a, r, dstva, src[..i + n])
    ensures AllAccessible(k.a, r, dstva, i + n) && (n == 0 ==> !AccessibleFrom(k.a, r, dstva, i))
  {
    var va := dstva + i;
    var v, o := va / PGSIZE, va % PGSIZE;
    var p := Walkaddr(k, r, v);
    if p == 0 {
      return 0;
    }
    n := Min(PGSIZE - o, |src| - i);
    var bytes := k.mem[p].bytes[..o] + src[i..i + n] + k.mem[p].bytes[o + n..];
    WroteMore(k, m0, r, dstva, src, i, n, va, bytes);
    WriteInv(k.mem, k.freelist, k.lo, k.a, p, Data(bytes));
    k.mem := k.mem[p := Data(bytes)];
    forall j: nat | j < i + n ensures AccessibleFrom(k.a, r, dstva, j) {
      if j >= i {
        InPage(va, j - i);
      }
    }
  }

  lemma {:induction false} WroteReads(k: PhysicalMemory, m0: Memory, r: nat, va: nat, src: seq<byte>)
    requires k.Valid() && UserOnly(k.a, r) && Wrote(m0, k.mem, k.a, r, va, src) && AllAccessible(k.a, r, va, |src|)
    ensures Reads(k.mem, k.a, r, va, src)
  {
    forall i: nat | i < |src| ensures ReadsByte(k.mem, k.a, r, va, i, src[i]) {
      var v := (va + i) / PGSIZE;
      assert AccessibleFrom(k.a, r, va, i);
      AccessibleReady(k, r, v);
      assert PageWritten(m0, k.mem, k.a.spaces[r].leaf[v].ppn, v, va, src);
      assert v * PGSIZE + (va + i) % PGSIZE == va + i;
    }
  }

  /** Any other open byte, of this space or another, is as before. */
  lemma {:induction false} WroteElsewhere(m: Memory, m': Memory, a: Abstract, r: nat, va: nat, src: seq<byte>,
      r2: nat, at: nat)
    requires Wrote(m, m', a, r, va, src) && Open(m, a, r2, at) && (r2 != r || at < va || va + |src| <= at)
    ensures Open(m', a, r2, at) && ByteAt(m', a, r2, at) == ByteAt(m, a, r2, at)
  {
    var v := at / PGSIZE;
    var p := a.spaces[r2].leaf[v].ppn;
    assert v * PGSIZE + at % PGSIZE == at;
    if r2 == r {
      assert PageWritten(m, m', p, a.uses[p].vpn, va, src);
    } else {
      assert m'[p] == m[p];
    }
  }

  /** Memory reads back in one way only: what copyout has written at `va` is what
      copyin returns. */
  lemma {:induction false} ReadsSame(mem: Memory, a: Abstract, r: nat, va: nat, src: seq<byte>, dst: seq<byte>)
    requires Reads(mem, a, r, va, src) && Reads(mem, a, r, va, dst) && |src| == |dst|
    ensures src == dst
  {
    forall i: nat | i < |src| ensures dst[i] == src[i] {
      assert ReadsByte(mem, a, r, va, i, src[i]) && ReadsByte(mem, a, r, va, i, dst[i]);
    }
  }
}
