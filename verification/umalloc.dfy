/** malloc, free and morecore of user/umalloc.c over one flat address space. */
module Umalloc {
  import opened FreeList

  const HEADER_BYTES: nat := 16

  /** The process break, in header units.  Other users of sbrk may move it up. */
  class Break {
    var brk: int
    var limit: int               // memory the kernel is willing to give, which may change at any time
    var calls: nat               // sbrk calls made by the allocator
    ghost var given: set<int>    // the units these calls have handed to it

    constructor (brk: int, limit: int)
      ensures this.brk == brk && this.limit == limit && calls == 0 && given == {}
    {
      this.brk, this.limit, calls, given := brk, limit, 0, {};
    }

    /** sbrk(units * sizeof(Header)): the old break, or -1. */
    method Sbrk(units: nat) returns (p: int)
      modifies `brk, `calls, `given
      ensures calls == old(calls) + 1
      ensures old(brk) + units <= limit ==>
        p == old(brk) && brk == old(brk) + units && given == old(given) + Region(old(brk), units)
      ensures old(brk) + units > limit ==> p == -1 && brk == old(brk) && given == old(given)
    {
      calls := calls + 1;
      if brk + units > limit {
        return -1;
      }
      p := brk;
      given := given + Region(brk, units);
      brk := brk + units;
    }
  }

  /** Header units for a request, including the header itself. */
  function Units(nbytes: nat): (n: nat)
    ensures n >= 1 && (n - 1) * HEADER_BYTES >= nbytes
    ensures n > 1 ==> (n - 2) * HEADER_BYTES < nbytes
  {
    (nbytes + HEADER_BYTES - 1) / HEADER_BYTES + 1
  }

  function Max(a: nat, b: nat): nat {
    if a < b then b else a
  }

  /** The blocks `live` keep their sizes. */
  ghost predicate SameSizes(live: set<int>, before: Memory, after: Memory) {
    forall a :: a in live ==> a in after && a in before && after[a].size == before[a].size
  }

  ghost function Next(i: nat, n: nat): (k: nat)
    requires i < n
    ensures k < n
  {
    if i + 1 < n then i + 1 else 0
  }

  class Heap {
    const base: int            // address of the static header
    const os: Break
    var mem: Memory
    var freep: int             // 0 until the first malloc
    ghost var fl: seq<int>     // free list in address order
    ghost var live: set<int>   // headers of blocks handed out and not freed
    ghost var arena: set<int>  // units obtained from sbrk

    constructor (base: int, os: Break)
      requires 0 < base < os.brk && os.given == {}
      ensures Valid() && this.base == base && this.os == os
      ensures live == {} && arena == {} && freep == 0
    {
      this.base, this.os := base, os;
      mem, freep, fl, live, arena := map[], 0, [], {}, {};
    }

    ghost predicate Valid()
      reads this, os
    {
      && 0 < base < os.brk && arena == os.given
      && (forall u :: u in arena ==> u < os.brk)
      && if freep == 0 then fl == [] && live == {} && arena == {}
         else Tiled(mem, fl, live, arena, base) && Coalesced(mem, fl) && freep in fl
    }

    /** The search of free(): go round from freep until the gap for `bp` is found. */
    method FindGap(bp: int) returns (p: int, ghost i: nat)
      requires Valid() && freep != 0 && bp in live
      ensures i < |fl| && p == fl[i] && p in mem && Gap(fl, i, bp)
    {
      assert bp !in fl by {
        assert forall k :: 0 <= k < |fl| ==> Apart(mem, bp, fl[k]);
      }
      ghost var g := GapExists(mem, fl, bp, |fl|);
      i :| 0 <= i < |fl| && fl[i] == freep;
      p := freep;
      assert LinkedAt(mem, fl, i);
      while !(bp > p && bp < mem[p].ptr)
        invariant 0 <= i < |fl| && p == fl[i] && LinkedAt(mem, fl, i)
        decreases if i <= g then g - i else g + |fl| - i
      {
        assert i < g ==> Before(mem, fl, i, g);
        assert g < i ==> Before(mem, fl, g, i);
        assert g + 1 < i ==> Before(mem, fl, g + 1, i);
        assert i + 1 < |fl| ==> Before(mem, fl, i, i + 1);
        assert 0 < i ==> Before(mem, fl, 0, i);
        if p >= mem[p].ptr && (bp > p || bp < mem[p].ptr) {
          break;
        }
        p := mem[p].ptr;
        i := if i + 1 < |fl| then i + 1 else 0;
        assert LinkedAt(mem, fl, i);
      }
    }

    /** free: insert the block after the gap's left neighbour, merging with the next
        free block, then with the previous one, if they touch. */
    method Free(ap: int)
      requires Valid() && ap - 1 in live
      modifies this
      ensures Valid() && freep != 0
      ensures live == old(live) - {ap - 1} && arena == old(arena)
      ensures SameSizes(live, old(mem), mem)
      ensures exists k :: 0 <= k < |fl| && fl[k] in mem && mem[fl[k]].size >= old(mem[ap - 1].size)
    {
      var bp := ap - 1;
      ghost var i;
      var p;
      p, i := FindGap(bp);
      ghost var fl' := FreeTiled(mem, fl, live, arena, base, i, bp);
      FreedElsewhere(mem, fl, live, base, i, bp);
      Link(p, bp);
      freep := p;
      fl, live := fl', live - {bp};
    }

    /** The header updates of free(), given the left neighbour. */
    method Link(p: int, bp: int)
      requires p in mem && bp in mem && mem[p].ptr in mem && p != bp
      modifies `mem
      ensures mem == FreedMem(old(mem), p, bp)
    {
      var q := mem[p].ptr;
      if bp + mem[bp].size == q {
        mem := mem[bp := Header(mem[q].ptr, mem[bp].size + mem[q].size)];
      } else {
        mem := mem[bp := mem[bp].(ptr := q)];
      }
      if p + mem[p].size == bp {
        mem := mem[p := Header(mem[bp].ptr, mem[p].size + mem[bp].size)];
      } else {
        mem := mem[p := mem[p].(ptr := bp)];
      }
    }

    ghost predicate Fits(units: nat)
      reads this
    {
      exists k :: 0 <= k < |fl| && !TooSmall(k, units)
    }

    ghost predicate TooSmall(k: int, units: nat)
      reads this
    {
      0 <= k < |fl| && fl[k] in mem && mem[fl[k]].size < units
    }

    /** morecore: get at least 4096 units from sbrk and free them. */
    method MoreCore(units: nat) returns (p: int)
      requires Valid() && freep != 0 && units > 0
      modifies this, os`brk, os`calls, os`given
      ensures Valid() && freep != 0 && os.calls == old(os.calls) + 1
      ensures live == old(live)
      ensures SameSizes(live, old(mem), mem)
      ensures p == 0 ==> mem == old(mem) && fl == old(fl) && freep == old(freep) && arena == old(arena)
      ensures p == 0 <==> old(os.brk) + Max(units, 4096) > os.limit
      ensures p == 0 ==> os.brk == old(os.brk)
      ensures p != 0 ==> os.brk == old(os.brk) + Max(units, 4096)
      ensures p != 0 ==> p == freep && Fits(units) && arena == old(arena) + Region(old(os.brk), Max(units, 4096))
    {
      var nu := if units < 4096 then 4096 else units;
      p := os.Sbrk(nu);
      if p == -1 {
        return 0;
      }
      var stale := if p in mem then mem[p].ptr else 0;
      GrowTiled(mem, fl, live, arena, base, p, nu, stale);
      mem := mem[p := Header(stale, nu)];
      live, arena := live + {p}, arena + Region(p, nu);
      Free(p + 1);
      ghost var k :| 0 <= k < |fl| && fl[k] in mem && mem[fl[k]].size >= nu;
      assert !TooSmall(k, units);
      return freep;
    }

    /** The end of malloc: unlink the block `p` or cut `units` off its end. */
    method Allot(prevp: int, p: int, units: nat, ghost i: nat) returns (r: int)
      requires Valid() && freep != 0 && 0 < i < |fl| && p == fl[i] && prevp == fl[i - 1]
      requires p in mem && prevp in mem && units > 0 && mem[p].size >= units
      modifies this
      ensures Valid() && freep == prevp != 0 && arena == old(arena)
      ensures r > 1 && r - 1 !in old(live) && live == old(live) + {r - 1}
      ensures r - 1 in mem && mem[r - 1].size == units
      ensures SameSizes(old(live), old(mem), mem)
    {
      assert i > 1 ==> Before(mem, fl, 0, i - 1);
      if mem[p].size == units {
        TakeWhole(prevp, p, i);
        r := p;
      } else {
        r := CutTail(p, units, i);
      }
      freep := prevp;
      r := r + 1;
    }

    method TakeWhole(prevp: int, p: int, ghost i: nat)
      requires Tiled(mem, fl, live, arena, base) && Coalesced(mem, fl)
      requires 0 < i < |fl| && p == fl[i] && prevp == fl[i - 1] && p in mem && prevp in mem
      modifies `mem, `fl, `live
      ensures Tiled(mem, fl, live, arena, base) && Coalesced(mem, fl)
      ensures p !in old(live) && live == old(live) + {p} && base < p && p in mem && mem[p].size == old(mem)[p].size
      ensures i - 1 < |fl| && fl[i - 1] == prevp
      ensures SameSizes(old(live), old(mem), mem)
    {
      TakeTiled(mem, fl, live, arena, base, i);
      mem := mem[prevp := mem[prevp].(ptr := mem[p].ptr)];
      fl, live := Removed(fl, i), live + {p};
    }

    method CutTail(p: int, units: nat, ghost i: nat) returns (r: int)
      requires Tiled(mem, fl, live, arena, base) && Coalesced(mem, fl)
      requires i < |fl| && p == fl[i] && p in mem && 0 < units < mem[p].size
      modifies `mem, `live
      ensures Tiled(mem, fl, live, arena, base) && Coalesced(mem, fl)
      ensures r !in old(live) && live == old(live) + {r} && base < r && r in mem && mem[r].size == units
      ensures SameSizes(old(live), old(mem), mem)
    {
      ghost var mem0 := mem;
      var size := mem[p].size - units;
      r := p + size;
      var stale := if r in mem then mem[r].ptr else 0;
      CarveTiled(mem, fl, live, arena, base, i, units, stale);
      CarveFrame(mem, fl, live, base, i, units, stale);
      mem := mem[p := mem[p].(size := size)];
      mem := mem[r := Header(stale, units)];
      assert mem == CarvedMem(mem0, p, units, stale);
      live := live + {r};
    }

    /** One round of malloc's search: from the block after freep up to freep itself.
        The first block that is large enough and its predecessor, or 0. */
    method FirstFit(units: nat) returns (prevp: int, p: int, ghost i: nat)
      requires ListOk(mem, fl, base) && freep in fl && 0 < base && units > 0
      ensures p == 0 <==> !Fits(units)
      ensures p != 0 ==>
        && 0 < i < |fl| && p == fl[i] && prevp == fl[i - 1]
        && p in mem && prevp in mem && mem[p].size >= units
      ensures p != 0 ==> forall j, k :: 0 <= j < |fl| && fl[j] == freep && Passed(k, i, j, |fl|) ==> TooSmall(k, units)
    {
      ghost var j :| 0 <= j < |fl| && fl[j] == freep;
      assert LinkedAt(mem, fl, j);
      prevp := freep;
      p := mem[prevp].ptr;
      i := Next(j, |fl|);
      PassedNext(j, j);
      while true
        invariant 0 <= i < |fl| && p == fl[i] && prevp in mem && (i > 0 ==> prevp == fl[i - 1])
        invariant forall k :: Passed(k, i, j, |fl|) ==> TooSmall(k, units)
        decreases if i <= j then j - i else j + |fl| - i
      {
        assert LinkedAt(mem, fl, i);
        if mem[p].size >= units {
          assert !TooSmall(i, units);
          Listed(i);
          Once(j);
          return;
        }
        if p == freep {
          RoundOver(i, j, units);
          return prevp, 0, 0;
        }
        PassedNext(i, j);
        prevp := p;
        p := mem[p].ptr;
        i := Next(i, |fl|);
      }
    }

    lemma {:induction false} Listed(i: nat)
      requires ListOk(mem, fl, base) && i < |fl|
      ensures fl[i] >= base
    {
      assert i > 0 ==> Before(mem, fl, 0, i);
    }

    /** freep is in the list only once. */
    lemma {:induction false} Once(j: nat)
      requires ListOk(mem, fl, base) && j < |fl|
      ensures forall k :: 0 <= k < |fl| && fl[k] == fl[j] ==> k == j
    {
      forall k | 0 <= k < |fl| && fl[k] == fl[j] ensures k == j {
        assert k < j ==> Before(mem, fl, k, j);
        assert j < k ==> Before(mem, fl, j, k);
      }
    }

    /** malloc: first fit, starting after freep; a round that finds nothing calls
        morecore, and the next round then succeeds. */
    method Malloc(nbytes: nat) returns (r: int)
      requires Valid()
      requires Units(nbytes) * HEADER_BYTES < 0x8000_0000      // the size sbrk's int argument can carry
      modifies this, os`brk, os`calls, os`given
      ensures Valid() && freep != 0
      ensures os.calls <= old(os.calls) + 1
      ensures os.calls == old(os.calls) ==> arena == old(arena)
      ensures old(Fits(Units(nbytes))) ==> r != 0 && os.calls == old(os.calls)
      ensures r == 0 <==> !old(Fits(Units(nbytes))) && old(os.brk) + Max(Units(nbytes), 4096) > os.limit
      ensures r == 0 ==> live == old(live) && os.calls == old(os.calls) + 1
      ensures os.brk == old(os.brk) + (if old(Fits(Units(nbytes))) || r == 0 then 0 else Max(Units(nbytes), 4096))
      ensures arena == os.given == old(arena) + Region(old(os.brk), os.brk - old(os.brk))
      ensures r != 0 ==>
        && r - 1 !in old(live) && live == old(live) + {r - 1}
        && r - 1 in mem && mem[r - 1].size == Units(nbytes)
      ensures SameSizes(old(live), old(mem), mem)
    {
      var units := Units(nbytes);
      if freep == 0 {
        InitList();
      }
      ghost var grown := false;
      while true
        invariant Valid() && freep != 0 && live == old(live) && SameSizes(live, old(mem), mem)
        invariant os.calls == old(os.calls) + (if grown then 1 else 0)
        invariant grown ==> Fits(units) && !old(Fits(units))
        invariant grown ==> os.brk == old(os.brk) + Max(units, 4096) <= os.limit
        invariant old(os.brk) <= os.brk
        invariant arena == old(arena) + Region(old(os.brk), os.brk - old(os.brk))
        invariant !grown ==> os.brk == old(os.brk) && (old(Fits(units)) <==> Fits(units))
        decreases !grown
      {
        var prevp, p;
        ghost var i;
        prevp, p, i := FirstFit(units);
        if p != 0 {
          r := Allot(prevp, p, units, i);
          return;
        }
        p := MoreCore(units);
        if p == 0 {
          return 0;
        }
        grown := true;
      }
    }

    /** Blocks already looked at in a round that ends at `j` and has reached `i`. */
    ghost predicate Passed(k: int, i: nat, j: nat, n: nat) {
      0 <= k < n && if i <= j then k < i || j < k else j < k < i
    }

    lemma {:induction false} PassedNext(i: nat, j: nat)
      requires i < |fl| && j < |fl|
      ensures forall k :: Passed(k, Next(i, |fl|), j, |fl|) ==> i != j && (k == i || Passed(k, i, j, |fl|))
    {
    }

    /** freep is met only at the end of a round, when every other block has been. */
    lemma {:induction false} RoundOver(i: nat, j: nat, units: nat)
      requires ListOk(mem, fl, base) && i < |fl| && j < |fl| && fl[i] == fl[j]
      requires TooSmall(i, units) && forall k :: Passed(k, i, j, |fl|) ==> TooSmall(k, units)
      ensures i == j && !Fits(units)
    {
      assert i < j ==> Before(mem, fl, i, j);
      assert j < i ==> Before(mem, fl, j, i);
      forall k | 0 <= k < |fl| ensures TooSmall(k, units) {
        assert k == i || Passed(k, i, j, |fl|);
      }
    }

    /** The first call sets up a list of just the static header. */
    method InitList()
      requires Valid() && freep == 0
      modifies `mem, `freep, `fl
      ensures Valid() && freep == base && fl == [base] && mem == old(mem)[base := Header(base, 0)]
    {
      mem := mem[base := Header(base, 0)];
      freep := base;
      fl := [base];
      assert LinkedAt(mem, fl, 0);
    }
  }
}
