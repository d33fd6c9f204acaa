/** The Kernighan and Ritchie free list (user/umalloc.c) as a value: header
    contents by address, counted in units of one Header, and the circular list of
    free blocks in address order starting from the static header `base`. */
module FreeList {
  datatype Header = Header(ptr: int, size: nat)
  type Memory = map<int, Header>

  ghost function After(fl: seq<int>, i: nat): int
    requires i < |fl|
  {
    if i + 1 < |fl| then fl[i + 1] else fl[0]
  }

  ghost predicate LinkedAt(mem: Memory, fl: seq<int>, i: nat)
    requires i < |fl|
  {
    fl[i] in mem && mem[fl[i]].ptr == After(fl, i)
  }

  /** Following `ptr` goes round the list. */
  ghost predicate Ring(mem: Memory, fl: seq<int>) {
    forall i :: 0 <= i < |fl| ==> LinkedAt(mem, fl, i)
  }

  ghost predicate Before(mem: Memory, fl: seq<int>, i: nat, j: nat)
    requires i < j < |fl|
  {
    fl[i] in mem && fl[i] + mem[fl[i]].size <= fl[j] && fl[i] < fl[j]
  }

  /** Blocks in address order, none overlapping a later one. */
  ghost predicate Ordered(mem: Memory, fl: seq<int>) {
    forall i, j :: 0 <= i < j < |fl| ==> Before(mem, fl, i, j)
  }

  ghost predicate Touch(mem: Memory, fl: seq<int>, i: nat)
    requires i + 1 < |fl| && fl[i] in mem
  {
    fl[i] + mem[fl[i]].size == fl[i + 1]
  }

  /** All free blocks that touch have been merged. */
  ghost predicate Coalesced(mem: Memory, fl: seq<int>) {
    forall i :: 0 <= i < |fl| - 1 ==> fl[i] in mem && !Touch(mem, fl, i)
  }

  ghost predicate Covers(mem: Memory, a: int, u: int) {
    a in mem && a <= u < a + mem[a].size
  }

  ghost predicate Within(p: int, units: nat, u: int) {
    p <= u < p + units
  }

  ghost function Region(p: int, units: nat): set<int> {
    set u: int | p <= u < p + units && Within(p, units, u)
  }

  ghost predicate InFree(mem: Memory, fl: seq<int>, u: int) {
    exists i :: 0 <= i < |fl| && Covers(mem, fl[i], u)
  }

  ghost predicate InLive(mem: Memory, live: set<int>, u: int) {
    exists a :: a in live && Covers(mem, a, u)
  }

  ghost predicate Apart(mem: Memory, a: int, b: int) {
    a in mem && b in mem && a != b && (a + mem[a].size <= b || b + mem[b].size <= a)
  }

  /** The free list: circular, in address order, from `base` of size 0. */
  ghost predicate ListOk(mem: Memory, fl: seq<int>, base: int) {
    && |fl| > 0 && fl[0] == base && base in mem && mem[base].size == 0
    && Ring(mem, fl) && Ordered(mem, fl)
    && (forall i :: 0 < i < |fl| ==> fl[i] in mem && mem[fl[i]].size > 0)
  }

  /** Live blocks overlap neither each other nor free blocks. */
  ghost predicate LiveOk(mem: Memory, fl: seq<int>, live: set<int>, base: int) {
    && (forall a :: a in live ==> a in mem && mem[a].size > 0 && base < a)
    && (forall a, b {:trigger Apart(mem, a, b)} :: a in live && b in live && a != b ==> Apart(mem, a, b))
    && (forall a, i {:trigger Apart(mem, a, fl[i])} :: a in live && 0 <= i < |fl| ==> Apart(mem, a, fl[i]))
  }

  ghost predicate Tiles(mem: Memory, fl: seq<int>, live: set<int>, arena: set<int>) {
    forall u :: u in arena <==> InFree(mem, fl, u) || InLive(mem, live, u)
  }

  /** The list is well formed, and free and live blocks tile what sbrk has given. */
  ghost predicate Tiled(mem: Memory, fl: seq<int>, live: set<int>, arena: set<int>, base: int) {
    ListOk(mem, fl, base) && LiveOk(mem, fl, live, base) && Tiles(mem, fl, live, arena)
  }

  // Insertion of a live block after position i, not yet merged

  ghost function Inserted(fl: seq<int>, i: nat, b: int): (r: seq<int>)
    requires i < |fl|
    ensures |r| == |fl| + 1
  {
    fl[..i + 1] + [b] + fl[i + 1..]
  }

  ghost function InsertedMem(mem: Memory, p: int, b: int): Memory
    requires p in mem && b in mem
  {
    mem[b := mem[b].(ptr := mem[p].ptr)][p := mem[p].(ptr := b)]
  }

  /** Where the search in free() ends: between two neighbours, or past the last. */
  ghost predicate Gap(fl: seq<int>, i: nat, b: int)
    requires i < |fl|
  {
    fl[i] < b && (i + 1 < |fl| ==> b < fl[i + 1])
  }

  lemma {:induction false} InsertTiled(mem: Memory, fl: seq<int>, live: set<int>, arena: set<int>, base: int, i: nat,
      b: int)
    requires Tiled(mem, fl, live, arena, base) && b in live && i < |fl| && Gap(fl, i, b)
    ensures fl[i] in mem && b in mem
    ensures Tiled(InsertedMem(mem, fl[i], b), Inserted(fl, i, b), live - {b}, arena, base)
  {
    var p := fl[i];
    assert LinkedAt(mem, fl, i) && Apart(mem, b, p);
    var mem', fl', live' := InsertedMem(mem, p, b), Inserted(fl, i, b), live - {b};
    InsertRing(mem, fl, live, arena, base, i, b);
    InsertOrdered(mem, fl, live, arena, base, i, b);
    forall u ensures u in arena <==> InFree(mem', fl', u) || InLive(mem', live', u) {
      InsertCovers(mem, fl, live, i, b, u);
    }
    forall a, k | a in live' && 0 <= k < |fl'| ensures Apart(mem', a, fl'[k]) {
      assert k <= i ==> Apart(mem, a, fl[k]);
      assert k > i + 1 ==> Apart(mem, a, fl[k - 1]);
      assert Apart(mem, a, b);
    }
    forall a, c | a in live' && c in live' && a != c ensures Apart(mem', a, c) {
      assert Apart(mem, a, c);
    }
  }

  lemma {:induction false} InsertOrdered(mem: Memory, fl: seq<int>, live: set<int>, arena: set<int>, base: int,
      i: nat, b: int)
    requires Tiled(mem, fl, live, arena, base) && b in live && i < |fl| && Gap(fl, i, b) && fl[i] in mem && b in mem
    ensures Ordered(InsertedMem(mem, fl[i], b), Inserted(fl, i, b))
  {
    var mem', fl' := InsertedMem(mem, fl[i], b), Inserted(fl, i, b);
    forall x, y | 0 <= x < y < |fl'| ensures Before(mem', fl', x, y) {
      var x' := if x <= i then x else x - 1;
      var y' := if y <= i then y else y - 1;
      if x == i + 1 {
        assert Apart(mem, b, fl[y']);
        assert i + 1 < y' ==> Before(mem, fl, i + 1, y');
      } else if y == i + 1 {
        assert Apart(mem, b, fl[x]);
        assert x < i ==> Before(mem, fl, x, i);
      } else {
        assert Before(mem, fl, x', y');
      }
    }
  }

  lemma {:induction false} InsertRing(mem: Memory, fl: seq<int>, live: set<int>, arena: set<int>, base: int, i: nat,
      b: int)
    requires Tiled(mem, fl, live, arena, base) && b in live && i < |fl| && fl[i] in mem && b in mem
    ensures Ring(InsertedMem(mem, fl[i], b), Inserted(fl, i, b))
  {
    var mem', fl' := InsertedMem(mem, fl[i], b), Inserted(fl, i, b);
    forall k | 0 <= k < |fl'| ensures LinkedAt(mem', fl', k) {
      var k' := if k <= i then k else k - 1;
      assert LinkedAt(mem, fl, k');
      assert Apart(mem, b, fl[k']);
      assert k' < i ==> Before(mem, fl, k', i);
      assert i < k' ==> Before(mem, fl, i, k');
    }
  }

  lemma {:induction false} InsertCovers(mem: Memory, fl: seq<int>, live: set<int>, i: nat, b: int, u: int)
    requires i < |fl| && b in live && fl[i] in mem && b in mem
    ensures var mem', fl', live' := InsertedMem(mem, fl[i], b), Inserted(fl, i, b), live - {b};
      InFree(mem, fl, u) || InLive(mem, live, u) <==> InFree(mem', fl', u) || InLive(mem', live', u)
  {
    var mem', fl', live' := InsertedMem(mem, fl[i], b), Inserted(fl, i, b), live - {b};
    assert forall a :: Covers(mem', a, u) == Covers(mem, a, u);
    if k :| 0 <= k < |fl| && Covers(mem, fl[k], u) {
      assert fl'[if k <= i then k else k + 1] == fl[k];
    }
    if a :| a in live && Covers(mem, a, u) {
      assert fl'[i + 1] == b;
    }
    if k :| 0 <= k < |fl'| && Covers(mem', fl'[k], u) {
      assert fl'[k] == if k <= i then fl[k] else if k == i + 1 then b else fl[k - 1];
    }
  }

  // Merging a free block with the next one, which it touches

  ghost function Removed(fl: seq<int>, j: nat): (r: seq<int>)
    requires j < |fl|
    ensures |r| == |fl| - 1
  {
    fl[..j] + fl[j + 1..]
  }

  ghost function MergedMem(mem: Memory, a: int, b: int): Memory
    requires a in mem && b in mem
  {
    mem[a := Header(mem[b].ptr, mem[a].size + mem[b].size)]
  }

  lemma {:induction false} MergeTiled(mem: Memory, fl: seq<int>, live: set<int>, arena: set<int>, base: int, j: nat)
    requires Tiled(mem, fl, live, arena, base) && 0 < j < |fl| - 1 && Touch(mem, fl, j)
    ensures fl[j + 1] in mem
    ensures Tiled(MergedMem(mem, fl[j], fl[j + 1]), Removed(fl, j + 1), live, arena, base)
  {
    assert LinkedAt(mem, fl, j) && LinkedAt(mem, fl, j + 1);
    MergeList(mem, fl, base, j);
    MergeLive(mem, fl, live, base, j);
    var mem', fl' := MergedMem(mem, fl[j], fl[j + 1]), Removed(fl, j + 1);
    forall u ensures u in arena <==> InFree(mem', fl', u) || InLive(mem', live, u) {
      MergeCovers(mem, fl, j, u);
      forall c | c in live ensures Covers(mem', c, u) == Covers(mem, c, u) {
        assert Apart(mem, c, fl[j]);
      }
    }
  }

  lemma {:induction false} MergeList(mem: Memory, fl: seq<int>, base: int, j: nat)
    requires ListOk(mem, fl, base) && 0 < j < |fl| - 1 && fl[j] in mem && fl[j + 1] in mem && Touch(mem, fl, j)
    ensures ListOk(MergedMem(mem, fl[j], fl[j + 1]), Removed(fl, j + 1), base)
  {
    var mem', fl' := MergedMem(mem, fl[j], fl[j + 1]), Removed(fl, j + 1);
    assert forall k :: 0 <= k < |fl'| ==> fl'[k] == fl[if k <= j then k else k + 1];
    MergeRing(mem, fl, j);
    forall x, y | 0 <= x < y < |fl'| ensures Before(mem', fl', x, y) {
      var x', y' := if x <= j then x else x + 1, if y <= j then y else y + 1;
      assert Before(mem, fl, x', y');
      assert x == j ==> Before(mem, fl, j + 1, y');
      assert x' < j ==> Before(mem, fl, x', j);
      assert j < x' ==> Before(mem, fl, j, x');
    }
    forall k | 0 < k < |fl'| ensures fl'[k] in mem' && mem'[fl'[k]].size > 0 {
      assert fl[if k <= j then k else k + 1] in mem;
    }
    assert Before(mem, fl, 0, j);
  }

  lemma {:induction false} MergeLive(mem: Memory, fl: seq<int>, live: set<int>, base: int, j: nat)
    requires LiveOk(mem, fl, live, base) && j < |fl| - 1 && fl[j] in mem && fl[j + 1] in mem && Touch(mem, fl, j)
    requires mem[fl[j]].size > 0 && mem[fl[j + 1]].size > 0
    ensures LiveOk(MergedMem(mem, fl[j], fl[j + 1]), Removed(fl, j + 1), live, base)
  {
    var a, b := fl[j], fl[j + 1];
    var mem', fl' := MergedMem(mem, a, b), Removed(fl, j + 1);
    forall c | c in live ensures Apart(mem', c, a) && c != a {
      assert Apart(mem, c, fl[j]) && Apart(mem, c, fl[j + 1]);
    }
    forall c, k | c in live && 0 <= k < |fl'| ensures Apart(mem', c, fl'[k]) {
      assert fl'[k] == fl[if k <= j then k else k + 1];
      assert Apart(mem, c, fl[if k <= j then k else k + 1]);
      assert Apart(mem', c, a);
    }
    forall c, d | c in live && d in live && c != d ensures Apart(mem', c, d) {
      assert Apart(mem, c, d) && Apart(mem', c, a) && Apart(mem', d, a);
    }
  }

  lemma {:induction false} MergeRing(mem: Memory, fl: seq<int>, j: nat)
    requires Ring(mem, fl) && Ordered(mem, fl) && j < |fl| - 1
    requires fl[j] in mem && fl[j + 1] in mem
    ensures Ring(MergedMem(mem, fl[j], fl[j + 1]), Removed(fl, j + 1))
  {
    var mem', fl' := MergedMem(mem, fl[j], fl[j + 1]), Removed(fl, j + 1);
    forall k | 0 <= k < |fl'| ensures LinkedAt(mem', fl', k) {
      var k' := if k <= j then k else k + 1;
      assert LinkedAt(mem, fl, k') && LinkedAt(mem, fl, j + 1);
      assert k' < j ==> Before(mem, fl, k', j);
      assert j < k' ==> Before(mem, fl, j, k');
    }
  }

  lemma {:induction false} MergeCovers(mem: Memory, fl: seq<int>, j: nat, u: int)
    requires Ordered(mem, fl) && j < |fl| - 1
    requires fl[j] in mem && fl[j + 1] in mem && Touch(mem, fl, j)
    ensures InFree(mem, fl, u) <==> InFree(MergedMem(mem, fl[j], fl[j + 1]), Removed(fl, j + 1), u)
  {
    var mem', fl' := MergedMem(mem, fl[j], fl[j + 1]), Removed(fl, j + 1);
    if k :| 0 <= k < |fl| && Covers(mem, fl[k], u) {
      var k' := if k <= j then k else k - 1;
      assert k < j ==> Before(mem, fl, k, j);
      assert j < k ==> Before(mem, fl, j, k);
      assert fl'[k'] == if k == j + 1 then fl[j] else fl[k];
      assert Covers(mem', fl'[k'], u);
    }
    if k :| 0 <= k < |fl'| && Covers(mem', fl'[k], u) {
      var k' := if k <= j then k else k + 1;
      assert fl'[k] == fl[k'];
      assert k' < j ==> Before(mem, fl, k', j);
      assert j < k' ==> Before(mem, fl, j, k');
      assert Covers(mem, fl[k'], u) || Covers(mem, fl[j + 1], u);
    }
  }

  // Allocation

  /** Handing out a whole free block. */
  ghost function TakenMem(mem: Memory, prevp: int, p: int): Memory
    requires p in mem && prevp in mem
  {
    mem[prevp := mem[prevp].(ptr := mem[p].ptr)]
  }

  lemma {:induction false} TakeTiled(mem: Memory, fl: seq<int>, live: set<int>, arena: set<int>, base: int, j: nat)
    requires Tiled(mem, fl, live, arena, base) && 0 < j < |fl|
    ensures fl[j] in mem && fl[j - 1] in mem && fl[j] !in live
    ensures Tiled(TakenMem(mem, fl[j - 1], fl[j]), Removed(fl, j), live + {fl[j]}, arena, base)
    ensures Coalesced(mem, fl) ==> Coalesced(TakenMem(mem, fl[j - 1], fl[j]), Removed(fl, j))
  {
    assert LinkedAt(mem, fl, j) && LinkedAt(mem, fl, j - 1);
    assert fl[j] in live ==> Apart(mem, fl[j], fl[j]);
    TakeList(mem, fl, base, j);
    TakeLive(mem, fl, live, base, j);
    var mem', fl', live' := TakenMem(mem, fl[j - 1], fl[j]), Removed(fl, j), live + {fl[j]};
    forall u ensures u in arena <==> InFree(mem', fl', u) || InLive(mem', live', u) {
      TakeCovers(mem, fl, live, j, u);
    }
  }

  lemma {:induction false} TakeList(mem: Memory, fl: seq<int>, base: int, j: nat)
    requires ListOk(mem, fl, base) && 0 < j < |fl| && fl[j] in mem && fl[j - 1] in mem
    ensures ListOk(TakenMem(mem, fl[j - 1], fl[j]), Removed(fl, j), base)
    ensures Coalesced(mem, fl) ==> Coalesced(TakenMem(mem, fl[j - 1], fl[j]), Removed(fl, j))
  {
    var mem', fl' := TakenMem(mem, fl[j - 1], fl[j]), Removed(fl, j);
    TakeRing(mem, fl, j);
    forall x, y | 0 <= x < y < |fl'| ensures Before(mem', fl', x, y) {
      assert Before(mem, fl, if x < j then x else x + 1, if y < j then y else y + 1);
    }
    forall k | 0 < k < |fl'| ensures fl'[k] in mem' && mem'[fl'[k]].size > 0 {
      assert fl[if k < j then k else k + 1] in mem;
    }
    if Coalesced(mem, fl) {
      TakeCoalesced(mem, fl, j);
    }
  }

  lemma {:induction false} TakeCoalesced(mem: Memory, fl: seq<int>, j: nat)
    requires Ordered(mem, fl) && Coalesced(mem, fl) && 0 < j < |fl| && fl[j] in mem && fl[j - 1] in mem
    requires mem[fl[j]].size > 0
    ensures Coalesced(TakenMem(mem, fl[j - 1], fl[j]), Removed(fl, j))
  {
    var mem', fl' := TakenMem(mem, fl[j - 1], fl[j]), Removed(fl, j);
    forall k | 0 <= k < |fl'| - 1 ensures fl'[k] in mem' && !Touch(mem', fl', k) {
      var k' := if k < j then k else k + 1;
      assert fl[k'] in mem && !Touch(mem, fl, k');
      assert k == j - 1 ==> Before(mem, fl, j - 1, j) && Before(mem, fl, j, j + 1);
    }
  }

  lemma {:induction false} TakeLive(mem: Memory, fl: seq<int>, live: set<int>, base: int, j: nat)
    requires ListOk(mem, fl, base) && LiveOk(mem, fl, live, base)
    requires 0 < j < |fl| && fl[j] in mem && fl[j - 1] in mem
    ensures LiveOk(TakenMem(mem, fl[j - 1], fl[j]), Removed(fl, j), live + {fl[j]}, base)
  {
    var mem', fl', live' := TakenMem(mem, fl[j - 1], fl[j]), Removed(fl, j), live + {fl[j]};
    assert Before(mem, fl, 0, j);
    forall c, k | c in live' && 0 <= k < |fl'| ensures Apart(mem', c, fl'[k]) {
      var k' := if k < j then k else k + 1;
      assert c in live ==> Apart(mem, c, fl[k']);
      assert k' < j ==> Before(mem, fl, k', j);
      assert j < k' ==> Before(mem, fl, j, k');
    }
    forall c, d | c in live' && d in live' && c != d ensures Apart(mem', c, d) {
      assert c in live && d in live ==> Apart(mem, c, d);
      assert c in live ==> Apart(mem, c, fl[j]);
      assert d in live ==> Apart(mem, d, fl[j]);
    }
  }

  lemma {:induction false} TakeRing(mem: Memory, fl: seq<int>, j: nat)
    requires Ring(mem, fl) && Ordered(mem, fl) && 0 < j < |fl| && fl[j] in mem && fl[j - 1] in mem
    ensures Ring(TakenMem(mem, fl[j - 1], fl[j]), Removed(fl, j))
  {
    var mem', fl' := TakenMem(mem, fl[j - 1], fl[j]), Removed(fl, j);
    forall k | 0 <= k < |fl'| ensures LinkedAt(mem', fl', k) {
      var k' := if k < j then k else k + 1;
      assert LinkedAt(mem, fl, k') && LinkedAt(mem, fl, j);
      assert k' < j - 1 ==> Before(mem, fl, k', j - 1);
      assert j - 1 < k' ==> Before(mem, fl, j - 1, k');
    }
  }

  lemma {:induction false} TakeCovers(mem: Memory, fl: seq<int>, live: set<int>, j: nat, u: int)
    requires 0 < j < |fl| && fl[j] in mem && fl[j - 1] in mem
    ensures var mem', fl', live' := TakenMem(mem, fl[j - 1], fl[j]), Removed(fl, j), live + {fl[j]};
      InFree(mem, fl, u) || InLive(mem, live, u) <==> InFree(mem', fl', u) || InLive(mem', live', u)
  {
    var mem', fl', live' := TakenMem(mem, fl[j - 1], fl[j]), Removed(fl, j), live + {fl[j]};
    assert forall a :: Covers(mem', a, u) == Covers(mem, a, u);
    if k :| 0 <= k < |fl| && Covers(mem, fl[k], u) {
      assert k != j ==> fl'[if k < j then k else k - 1] == fl[k];
      assert k == j ==> fl[j] in live' && Covers(mem', fl[j], u);
    }
    if k :| 0 <= k < |fl'| && Covers(mem', fl'[k], u) {
      assert fl'[k] == fl[if k < j then k else k + 1];
    }
    if a :| a in live' && Covers(mem', a, u) {
      assert a in live || a == fl[j];
    }
  }

  /** Handing out the tail end of a free block. */
  ghost function CarvedMem(mem: Memory, p: int, units: nat, stale: int): Memory
    requires p in mem && units < mem[p].size
  {
    mem[p := mem[p].(size := mem[p].size - units)][p + mem[p].size - units := Header(stale, units)]
  }

  lemma {:induction false} CarveTiled(mem: Memory, fl: seq<int>, live: set<int>, arena: set<int>, base: int, j: nat,
      units: nat, stale: int)
    requires Tiled(mem, fl, live, arena, base) && j < |fl|
    requires fl[j] in mem && 0 < units < mem[fl[j]].size
    ensures var cut := fl[j] + mem[fl[j]].size - units;
      && cut !in live
      && Tiled(CarvedMem(mem, fl[j], units, stale), fl, live + {cut}, arena, base)
      && (Coalesced(mem, fl) ==> Coalesced(CarvedMem(mem, fl[j], units, stale), fl))
  {
    var cut := fl[j] + mem[fl[j]].size - units;
    var mem', live' := CarvedMem(mem, fl[j], units, stale), live + {cut};
    CarveFrame(mem, fl, live, base, j, units, stale);
    CarveList(mem, fl, live, base, j, units, stale);
    CarveLive(mem, fl, live, base, j, units, stale);
    forall u ensures u in arena <==> InFree(mem', fl, u) || InLive(mem', live', u) {
      CarveCovers(mem, mem', fl, live, live', j, cut, u);
    }
  }

  /** The header of the tail lies in no other block, so no other header changes. */
  lemma {:induction false} CarveFrame(mem: Memory, fl: seq<int>, live: set<int>, base: int, j: nat, units: nat,
      stale: int)
    requires ListOk(mem, fl, base) && LiveOk(mem, fl, live, base) && j < |fl|
    requires fl[j] in mem && 0 < units < mem[fl[j]].size
    ensures var cut, mem' := fl[j] + mem[fl[j]].size - units, CarvedMem(mem, fl[j], units, stale);
      && (forall c :: c in live ==> c in mem && c != cut && c != fl[j] && mem'[c] == mem[c])
      && (forall k :: 0 <= k < |fl| ==> fl[k] in mem && fl[k] != cut && (fl[k] != fl[j] ==> mem'[fl[k]] == mem[fl[k]]))
      && (forall k :: 0 <= k < |fl| ==> fl[k] in mem'&& mem'[fl[k]].ptr == mem[fl[k]].ptr)
  {
    forall c | c in live ensures Apart(mem, c, fl[j]) {
    }
    forall k | 0 <= k < |fl| ensures fl[k] in mem && fl[k] != fl[j] + mem[fl[j]].size - units {
      assert LinkedAt(mem, fl, k);
      assert k < j ==> Before(mem, fl, k, j);
      assert j < k ==> Before(mem, fl, j, k);
    }
  }

  lemma {:induction false} CarveList(mem: Memory, fl: seq<int>, live: set<int>, base: int, j: nat, units: nat,
      stale: int)
    requires ListOk(mem, fl, base) && LiveOk(mem, fl, live, base) && j < |fl|
    requires fl[j] in mem && 0 < units < mem[fl[j]].size
    ensures ListOk(CarvedMem(mem, fl[j], units, stale), fl, base)
    ensures Coalesced(mem, fl) ==> Coalesced(CarvedMem(mem, fl[j], units, stale), fl)
  {
    var mem' := CarvedMem(mem, fl[j], units, stale);
    CarveFrame(mem, fl, live, base, j, units, stale);
    forall k | 0 <= k < |fl| ensures LinkedAt(mem', fl, k) {
      assert LinkedAt(mem, fl, k);
    }
    forall x, y | 0 <= x < y < |fl| ensures Before(mem', fl, x, y) {
      assert Before(mem, fl, x, y);
    }
    if Coalesced(mem, fl) {
      forall k | 0 <= k < |fl| - 1 ensures fl[k] in mem' && !Touch(mem', fl, k) {
        assert fl[k] in mem && !Touch(mem, fl, k) && Before(mem, fl, k, k + 1);
      }
    }
  }

  lemma {:induction false} CarveLive(mem: Memory, fl: seq<int>, live: set<int>, base: int, j: nat, units: nat,
      stale: int)
    requires ListOk(mem, fl, base) && LiveOk(mem, fl, live, base) && j < |fl|
    requires fl[j] in mem && 0 < units < mem[fl[j]].size
    ensures LiveOk(CarvedMem(mem, fl[j], units, stale), fl, live + {fl[j] + mem[fl[j]].size - units}, base)
  {
    var p := fl[j];
    var cut := p + mem[p].size - units;
    var mem', live' := CarvedMem(mem, p, units, stale), live + {cut};
    CarveFrame(mem, fl, live, base, j, units, stale);
    assert j > 0 ==> Before(mem, fl, 0, j);
    forall c, k | c in live' && 0 <= k < |fl| ensures Apart(mem', c, fl[k]) {
      assert c in live ==> Apart(mem, c, fl[k]);
      assert k < j ==> Before(mem, fl, k, j);
      assert j < k ==> Before(mem, fl, j, k);
    }
    forall c, d | c in live' && d in live' && c != d ensures Apart(mem', c, d) {
      assert c in live && d in live ==> Apart(mem, c, d);
      assert c in live ==> Apart(mem, c, fl[j]);
      assert d in live ==> Apart(mem, d, fl[j]);
    }
  }

  lemma {:induction false} CarveCovers(mem: Memory, mem': Memory, fl: seq<int>, live: set<int>, live': set<int>,
      j: nat, cut: int, u: int)
    requires j < |fl| && fl[j] in mem && live' == live + {cut}
    requires cut in mem' && fl[j] in mem' && fl[j] + mem'[fl[j]].size == cut
    requires cut + mem'[cut].size == fl[j] + mem[fl[j]].size
    requires forall k ::
      0 <= k < |fl| ==> fl[k] in mem && fl[k] in mem' && fl[k] != cut && (fl[k] != fl[j] ==> mem'[fl[k]] == mem[fl[k]])
    requires forall c :: c in live ==> c in mem && c in mem' && mem'[c] == mem[c]
    ensures InFree(mem, fl, u) || InLive(mem, live, u) <==> InFree(mem', fl, u) || InLive(mem', live', u)
  {
    if k :| 0 <= k < |fl| && Covers(mem, fl[k], u) {
      assert Covers(mem', fl[k], u) || Covers(mem', cut, u);
    }
    if k :| 0 <= k < |fl| && Covers(mem', fl[k], u) {
      assert Covers(mem, fl[k], u);
    }
    if c :| c in live && Covers(mem, c, u) {
      assert Covers(mem', c, u);
    }
    if c :| c in live' && Covers(mem', c, u) {
      assert c == cut ==> Covers(mem, fl[j], u);
      assert c != cut ==> Covers(mem, c, u);
    }
  }

  // New memory

  lemma {:induction false} GrowTiled(mem: Memory, fl: seq<int>, live: set<int>, arena: set<int>, base: int, p: int,
      units: nat, stale: int)
    requires Tiled(mem, fl, live, arena, base) && units > 0 && base < p
    requires forall u :: u in arena ==> u < p
    ensures p !in live
    ensures Tiled(mem[p := Header(stale, units)], fl, live + {p}, arena + Region(p, units), base)
    ensures Coalesced(mem, fl) ==> Coalesced(mem[p := Header(stale, units)], fl)
  {
    var mem', live', arena' := mem[p := Header(stale, units)], live + {p}, arena + Region(p, units);
    forall k | 0 <= k < |fl| ensures fl[k] in mem && fl[k] + mem[fl[k]].size <= p && fl[k] < p {
      assert LinkedAt(mem, fl, k);
      assert mem[fl[k]].size > 0 ==> Covers(mem, fl[k], fl[k] + mem[fl[k]].size - 1);
      assert mem[fl[k]].size > 0 ==> InFree(mem, fl, fl[k] + mem[fl[k]].size - 1);
    }
    forall c | c in live ensures c in mem && c + mem[c].size <= p && c < p {
      assert Covers(mem, c, c + mem[c].size - 1);
      assert InLive(mem, live, c + mem[c].size - 1);
    }
    forall k | 0 <= k < |fl| ensures LinkedAt(mem', fl, k) {
      assert LinkedAt(mem, fl, k);
    }
    forall x, y | 0 <= x < y < |fl| ensures Before(mem', fl, x, y) {
      assert Before(mem, fl, x, y);
    }
    forall c, k | c in live' && 0 <= k < |fl| ensures Apart(mem', c, fl[k]) {
      assert c in live ==> Apart(mem, c, fl[k]);
    }
    forall c, d | c in live' && d in live' && c != d ensures Apart(mem', c, d) {
      assert c in live && d in live ==> Apart(mem, c, d);
    }
    forall u ensures u in arena' <==> InFree(mem', fl, u) || InLive(mem', live', u) {
      GrowCovers(mem, mem', fl, live, p, u);
    }
    if Coalesced(mem, fl) {
      forall k | 0 <= k < |fl| - 1 ensures fl[k] in mem' && !Touch(mem', fl, k) {
        assert fl[k] in mem && !Touch(mem, fl, k);
      }
    }
  }

  lemma {:induction false} GrowCovers(mem: Memory, mem': Memory, fl: seq<int>, live: set<int>, p: int, u: int)
    requires p in mem' && (forall k :: 0 <= k < |fl| ==> fl[k] in mem && fl[k] in mem' && mem'[fl[k]] == mem[fl[k]])
    requires forall c :: c in live ==> c in mem && c in mem' && mem'[c] == mem[c]
    ensures InFree(mem', fl, u) || InLive(mem', live + {p}, u) <==>
      InFree(mem, fl, u) || InLive(mem, live, u) || Covers(mem', p, u)
  {
    if k :| 0 <= k < |fl| && Covers(mem, fl[k], u) {
      assert Covers(mem', fl[k], u);
    }
    if k :| 0 <= k < |fl| && Covers(mem', fl[k], u) {
      assert Covers(mem, fl[k], u);
    }
    if c :| c in live && Covers(mem, c, u) {
      assert c in live + {p} && Covers(mem', c, u);
    }
    if c :| c in live + {p} && Covers(mem', c, u) {
      assert c != p ==> Covers(mem, c, u);
    }
    assert p in live + {p};
  }

  // Which neighbours may touch

  ghost predicate TouchOnlyAt(mem: Memory, fl: seq<int>, i: nat, j: nat) {
    forall k :: 0 <= k < |fl| - 1 ==> fl[k] in mem && (k == i || k == j || !Touch(mem, fl, k))
  }

  lemma {:induction false} InsertTouch(mem: Memory, fl: seq<int>, live: set<int>, base: int, i: nat, b: int)
    requires ListOk(mem, fl, base) && LiveOk(mem, fl, live, base) && Coalesced(mem, fl)
    requires i < |fl| && b in live && fl[i] in mem && b in mem
    ensures TouchOnlyAt(InsertedMem(mem, fl[i], b), Inserted(fl, i, b), i, i + 1)
  {
    var mem', fl' := InsertedMem(mem, fl[i], b), Inserted(fl, i, b);
    forall k | 0 <= k < |fl'| - 1 ensures fl'[k] in mem' && (k == i || k == i + 1 || !Touch(mem', fl', k)) {
      assert k <= i ==> LinkedAt(mem, fl, k);
      assert k > i + 1 ==> LinkedAt(mem, fl, k - 1);
      assert k < i ==> fl[k] in mem && !Touch(mem, fl, k);
      assert k > i + 1 ==> fl[k - 1] in mem && !Touch(mem, fl, k - 1);
    }
  }

  lemma {:induction false} MergeTouch(mem: Memory, fl: seq<int>, i: nat, j: nat)
    requires Ring(mem, fl) && Ordered(mem, fl) && i <= j < |fl| - 1
    requires fl[j] in mem && fl[j + 1] in mem && Touch(mem, fl, j) && TouchOnlyAt(mem, fl, i, j)
    ensures i < j ==> TouchOnlyAt(MergedMem(mem, fl[j], fl[j + 1]), Removed(fl, j + 1), i, i)
    ensures i == j ==> Coalesced(MergedMem(mem, fl[j], fl[j + 1]), Removed(fl, j + 1))
  {
    var mem', fl' := MergedMem(mem, fl[j], fl[j + 1]), Removed(fl, j + 1);
    assert forall k :: 0 <= k < |fl'| ==> fl'[k] == fl[if k <= j then k else k + 1];
    forall k | 0 <= k < |fl'| - 1
      ensures fl'[k] in mem' && ((k == i && i < j) || !Touch(mem', fl', k))
    {
      var k' := if k < j then k else k + 1;
      assert fl[k'] in mem && (k' == i || k' == j || !Touch(mem, fl, k'));
      assert k < j ==> Before(mem, fl, k, j);
      assert j < k' ==> Before(mem, fl, j, k');
    }
  }

  /** The list always has a place for a block that is not in it. */
  lemma {:induction false} GapExists(mem: Memory, fl: seq<int>, b: int, k: nat) returns (g: nat)
    requires Ring(mem, fl) && Ordered(mem, fl) && 0 < k <= |fl| && fl[0] < b && b !in fl
    requires forall i :: k <= i < |fl| ==> b < fl[i]
    ensures g < |fl| && Gap(fl, g, b)
  {
    if fl[k - 1] < b {
      g := k - 1;
    } else {
      g := GapExists(mem, fl, b, k - 1);
    }
  }

  // free() as a whole

  /** What free() does to the headers once it has found the gap after `p`. */
  function FreedMem(mem: Memory, p: int, b: int): Memory
    requires p in mem && b in mem && mem[p].ptr in mem && p != b
  {
    var q := mem[p].ptr;
    var m := if b + mem[b].size == q then mem[b := Header(mem[q].ptr, mem[b].size + mem[q].size)]
             else mem[b := mem[b].(ptr := q)];
    if p + m[p].size == b then m[p := Header(m[b].ptr, m[p].size + m[b].size)]
    else m[p := m[p].(ptr := b)]
  }

  ghost predicate TouchesNext(mem: Memory, fl: seq<int>, j: nat) {
    j + 1 < |fl| && fl[j] in mem && Touch(mem, fl, j)
  }

  ghost function MergeIfTouching(mem: Memory, fl: seq<int>, j: nat): (Memory, seq<int>)
    requires j < |fl| && forall k :: 0 <= k < |fl| ==> fl[k] in mem
  {
    if TouchesNext(mem, fl, j) then (MergedMem(mem, fl[j], fl[j + 1]), Removed(fl, j + 1)) else (mem, fl)
  }

  lemma {:induction false} RingInMem(mem: Memory, fl: seq<int>)
    requires Ring(mem, fl)
    ensures forall k :: 0 <= k < |fl| ==> fl[k] in mem
  {
    forall k | 0 <= k < |fl| ensures fl[k] in mem {
      assert LinkedAt(mem, fl, k);
    }
  }

  /** Insert, merge with the next block, merge with the previous block: the list is
      again circular, ordered and fully merged, the tiling is kept, and the
      headers are exactly those free() writes. */
  lemma {:induction false} FreeTiled(mem: Memory, fl: seq<int>, live: set<int>, arena: set<int>, base: int, i: nat,
      b: int)
    returns (fl': seq<int>)
    requires Tiled(mem, fl, live, arena, base) && Coalesced(mem, fl) && b in live && i < |fl| && Gap(fl, i, b)
    ensures fl[i] in mem && b in mem && mem[fl[i]].ptr in mem && fl[i] != b
    ensures Tiled(FreedMem(mem, fl[i], b), fl', live - {b}, arena, base)
    ensures Coalesced(FreedMem(mem, fl[i], b), fl')
    ensures i < |fl'| && fl'[i] == fl[i]
    ensures exists k :: 0 <= k < |fl'| && FreedMem(mem, fl[i], b)[fl'[k]].size >= mem[b].size
  {
    var p := fl[i];
    RingInMem(mem, fl);
    assert LinkedAt(mem, fl, i) && Apart(mem, b, p);
    InsertTiled(mem, fl, live, arena, base, i, b);
    InsertTouch(mem, fl, live, base, i, b);
    var mem1, fl1 := InsertedMem(mem, p, b), Inserted(fl, i, b);
    var mem2, fl2 := MergeNext(mem1, fl1, live - {b}, arena, base, i);
    var mem3, fl3 := MergePrev(mem2, fl2, live - {b}, arena, base, i);
    fl' := fl3;
    FreedIsStaged(mem, fl, live, base, i, b);
    assert if fl3 == fl2 then fl3[i + 1] == b else fl3[i] == p;
  }

  lemma {:induction false} MergeNext(mem: Memory, fl: seq<int>, live: set<int>, arena: set<int>, base: int, i: nat)
    returns (mem': Memory, fl': seq<int>)
    requires Tiled(mem, fl, live, arena, base) && i + 1 < |fl| && TouchOnlyAt(mem, fl, i, i + 1)
    ensures forall k :: 0 <= k < |fl| ==> fl[k] in mem
    ensures (mem', fl') == MergeIfTouching(mem, fl, i + 1)
    ensures Tiled(mem', fl', live, arena, base) && TouchOnlyAt(mem', fl', i, i)
    ensures i + 1 < |fl'| && fl'[i] == fl[i] && fl'[i + 1] == fl[i + 1]
    ensures fl[i + 1] in mem' && mem'[fl[i + 1]].size >= mem[fl[i + 1]].size
  {
    RingInMem(mem, fl);
    mem', fl' := mem, fl;
    if TouchesNext(mem, fl, i + 1) {
      MergeTiled(mem, fl, live, arena, base, i + 1);
      MergeTouch(mem, fl, i, i + 1);
      mem', fl' := MergedMem(mem, fl[i + 1], fl[i + 2]), Removed(fl, i + 2);
    }
  }

  lemma {:induction false} MergePrev(mem: Memory, fl: seq<int>, live: set<int>, arena: set<int>, base: int, i: nat)
    returns (mem': Memory, fl': seq<int>)
    requires Tiled(mem, fl, live, arena, base) && i + 1 < |fl| && TouchOnlyAt(mem, fl, i, i)
    ensures forall k :: 0 <= k < |fl| ==> fl[k] in mem
    ensures (mem', fl') == MergeIfTouching(mem, fl, i)
    ensures Tiled(mem', fl', live, arena, base) && Coalesced(mem', fl')
    ensures i < |fl'| && fl'[i] == fl[i]
    ensures fl'  == fl ==> fl'[i + 1] in mem' && mem'[fl[i + 1]].size >= mem[fl[i + 1]].size
    ensures fl' != fl ==> fl[i] in mem' && mem'[fl[i]].size >= mem[fl[i + 1]].size
  {
    RingInMem(mem, fl);
    mem', fl' := mem, fl;
    assert Before(mem, fl, i, i + 1);
    if TouchesNext(mem, fl, i) {
      MergeTiled(mem, fl, live, arena, base, i);
      MergeTouch(mem, fl, i, i);
      mem', fl' := MergedMem(mem, fl[i], fl[i + 1]), Removed(fl, i + 1);
    }
  }

  lemma {:induction false} FreedIsStaged(mem: Memory, fl: seq<int>, live: set<int>, base: int, i: nat, b: int)
    requires ListOk(mem, fl, base) && LiveOk(mem, fl, live, base) && b in live && i < |fl| && Gap(fl, i, b)
    requires fl[i] in mem && b in mem && mem[fl[i]].ptr in mem && fl[i] != b
    requires forall k :: 0 <= k < |Inserted(fl, i, b)| ==> Inserted(fl, i, b)[k] in InsertedMem(mem, fl[i], b)
    ensures var m1, l1 := InsertedMem(mem, fl[i], b), Inserted(fl, i, b);
      var (m2, l2) := MergeIfTouching(m1, l1, i + 1);
      && (forall k :: 0 <= k < |l2| ==> l2[k] in m2) && i < |l2|
      && MergeIfTouching(m2, l2, i).0 == FreedMem(mem, fl[i], b)
  {
    var p := fl[i];
    var q := mem[p].ptr;
    assert LinkedAt(mem, fl, i);
    var m1, l1 := InsertedMem(mem, p, b), Inserted(fl, i, b);
    assert i + 1 < |fl| ==> l1[i + 2] == q == fl[i + 1] && Before(mem, fl, i, i + 1);
    assert i + 1 == |fl| ==> q == base < b;
    assert TouchesNext(m1, l1, i + 1) <==> b + mem[b].size == q;
    var (m2, l2) := MergeIfTouching(m1, l1, i + 1);
    assert l2[i] == p && l2[i + 1] == b;
    assert TouchesNext(m2, l2, i) <==> p + mem[p].size == b;
  }

  /** free() writes no header of a block that stays live. */
  lemma {:induction false} FreedElsewhere(mem: Memory, fl: seq<int>, live: set<int>, base: int, i: nat, b: int)
    requires ListOk(mem, fl, base) && LiveOk(mem, fl, live, base) && b in live && i < |fl|
    requires fl[i] in mem && b in mem && mem[fl[i]].ptr in mem && fl[i] != b
    ensures forall a :: a in live && a != b ==>
      a in mem && a in FreedMem(mem, fl[i], b) && FreedMem(mem, fl[i], b)[a] == mem[a]
    ensures base <= fl[i]
  {
    forall a | a in live ensures a in mem && a != fl[i] {
      assert Apart(mem, a, fl[i]);
    }
    assert i > 0 ==> Before(mem, fl, 0, i);
  }

  lemma {:induction false} BlocksApart(mem: Memory, fl: seq<int>, live: set<int>, base: int, a: int, b: int)
    requires ListOk(mem, fl, base) && LiveOk(mem, fl, live, base)
    requires (a in live || a in fl) && (b in live || b in fl) && a != b
    ensures Apart(mem, a, b)
  {
    if a in live {
      if b in fl {
        var j :| 0 <= j < |fl| && fl[j] == b;
        assert Apart(mem, a, fl[j]);
      }
    } else if b in live {
      var i :| 0 <= i < |fl| && fl[i] == a;
      assert Apart(mem, b, fl[i]);
    } else {
      var i :| 0 <= i < |fl| && fl[i] == a;
      var j :| 0 <= j < |fl| && fl[j] == b;
      assert LinkedAt(mem, fl, i) && LinkedAt(mem, fl, j);
      assert i < j ==> Before(mem, fl, i, j);
      assert j < i ==> Before(mem, fl, j, i);
    }
  }

  /** Free and live blocks partition the arena: every unit lies in some block, and
      in no other one. */
  lemma {:induction false} OneBlockPerUnit(mem: Memory, fl: seq<int>, live: set<int>, arena: set<int>, base: int,
      u: int)
      returns (a: int)
    requires Tiled(mem, fl, live, arena, base) && u in arena
    ensures (a in live || a in fl) && Covers(mem, a, u)
    ensures forall b :: (b in live || b in fl) && b != a ==> !Covers(mem, b, u)
  {
    if InFree(mem, fl, u) {
      var i :| 0 <= i < |fl| && Covers(mem, fl[i], u);
      a := fl[i];
    } else {
      a :| a in live && Covers(mem, a, u);
    }
    forall b | (b in live || b in fl) && b != a ensures !Covers(mem, b, u) {
      BlocksApart(mem, fl, live, base, a, b);
    }
  }
}
