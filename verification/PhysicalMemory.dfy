/** The physical page allocator: a bitmap of used pages and the scans over it. */
module PhysicalMemory {
  import opened Basics

  // ---------- bits ----------

  function Mask(k: nat): bv8
    requires k < 8
  {
    if k == 0 then 1 else if k == 1 then 2 else if k == 2 then 4 else if k == 3 then 8
    else if k == 4 then 16 else if k == 5 then 32 else if k == 6 then 64 else 128
  }

  predicate On(x: bv8, k: nat)
    requires k < 8
  {
    x & Mask(k) != 0
  }

  function TurnOn(x: bv8, k: nat): bv8
    requires k < 8
  {
    x | Mask(k)
  }

  function TurnOff(x: bv8, k: nat): bv8
    requires k < 8
  {
    x & !Mask(k)
  }

  /** BITMAP_TEST; pages past the end of the array read as used. */
  predicate Bit(b: seq<bv8>, i: nat) {
    i / 8 < |b| ==> On(b[i / 8], i % 8)
  }

  function SetBit(b: seq<bv8>, i: nat): seq<bv8>
    requires i / 8 < |b|
  {
    b[i / 8 := TurnOn(b[i / 8], i % 8)]
  }

  function ClearBit(b: seq<bv8>, i: nat): seq<bv8>
    requires i / 8 < |b|
  {
    b[i / 8 := TurnOff(b[i / 8], i % 8)]
  }

  lemma BitOn(x: bv8, j: nat, k: nat)
    requires j < 8 && k < 8
    ensures On(TurnOn(x, j), k) <==> j == k || On(x, k)
  {
  }

  lemma BitOff(x: bv8, j: nat, k: nat)
    requires j < 8 && k < 8
    ensures On(TurnOff(x, j), k) <==> j != k && On(x, k)
  {
  }

  lemma SameBit(i: nat, j: nat)
    ensures i == j <==> i / 8 == j / 8 && i % 8 == j % 8
  {
  }

  /** Setting a bit changes that bit only. */
  lemma SetBitAt(b: seq<bv8>, i: nat, j: nat)
    requires i / 8 < |b| && j / 8 < |b|
    ensures Bit(SetBit(b, i), j) <==> j == i || Bit(b, j)
  {
    hide On, TurnOn;
    BitOn(b[i / 8], i % 8, j % 8);
    SameBit(i, j);
  }

  lemma ClearBitAt(b: seq<bv8>, i: nat, j: nat)
    requires i / 8 < |b| && j / 8 < |b|
    ensures Bit(ClearBit(b, i), j) <==> j != i && Bit(b, j)
  {
    hide On, TurnOff;
    BitOff(b[i / 8], i % 8, j % 8);
    SameBit(i, j);
  }

  /** The bitmap as a set: the pages below `total` whose bit is clear. */
  function FreePages(b: seq<bv8>, total: nat): set<nat> {
    set i: nat | i < total && !Bit(b, i)
  }

  lemma SetBitFree(b: seq<bv8>, total: nat, i: nat)
    requires total <= 8 * |b| && i / 8 < |b|
    ensures FreePages(SetBit(b, i), total) == FreePages(b, total) - {i}
  {
    forall j: nat | j < total
      ensures j in FreePages(SetBit(b, i), total) <==> j in FreePages(b, total) - {i}
    {
      SetBitAt(b, i, j);
    }
  }

  lemma ClearBitFree(b: seq<bv8>, total: nat, i: nat)
    requires total <= 8 * |b| && i < total
    ensures FreePages(ClearBit(b, i), total) == FreePages(b, total) + {i}
  {
    forall j: nat | j < total
      ensures j in FreePages(ClearBit(b, i), total) <==> j in FreePages(b, total) + {i}
    {
      ClearBitAt(b, i, j);
    }
  }

  // ---------- runs ----------

  /** Bits x to x + n - 1 are clear. */
  ghost predicate Clear(b: seq<bv8>, x: int, n: nat) {
    forall y: nat :: x <= y < x + n ==> !Bit(b, y)
  }

  /** A run of n free pages, wholly below the end of memory. */
  ghost predicate FreeRun(b: seq<bv8>, total: nat, x: int, n: nat) {
    0 <= x && x + n <= total && Clear(b, x, n)
  }

  /** A clear run that starts at or below `total` and runs past the last page. */
  ghost predicate CrossingRun(b: seq<bv8>, total: nat, x: int, n: nat) {
    0 <= x <= total < x + n && Clear(b, x, n)
  }

  /** What a caller of pmm_alloc_pages expects: the lowest run of n free pages, or nothing if there is none. */
  ghost predicate LowestRun(b: seq<bv8>, total: nat, n: nat, found: bool, x: int) {
    if found then FreeRun(b, total, x, n) && forall z :: 0 <= z < x ==> !FreeRun(b, total, z, n)
    else forall z :: !FreeRun(b, total, z, n)
  }

  /** What the scan computes: the lowest clear run that starts at or below `total`. */
  ghost predicate LowestClear(b: seq<bv8>, total: nat, n: nat, found: bool, x: int) {
    if found then 0 <= x <= total && Clear(b, x, n) && forall z :: 0 <= z < x ==> !Clear(b, z, n)
    else forall z :: 0 <= z <= total ==> !Clear(b, z, n)
  }

  /** The scan meets its callers' expectation if and only if a proper run exists or no clear run crosses the end. */
  lemma ScanCorrectIff(b: seq<bv8>, total: nat, n: nat, found: bool, x: int)
    requires 1 <= n <= total && LowestClear(b, total, n, found, x)
    ensures LowestRun(b, total, n, found, x) <==>
            (exists z :: FreeRun(b, total, z, n)) || (forall z :: !CrossingRun(b, total, z, n))
  {
    if found {
      if x + n > total {
        assert CrossingRun(b, total, x, n);
        forall z
          ensures !FreeRun(b, total, z, n)
        {
          assert z < x ==> z < 0 || !Clear(b, z, n);
        }
      } else {
        assert FreeRun(b, total, x, n);
      }
    } else {
      forall z
        ensures !FreeRun(b, total, z, n) && !CrossingRun(b, total, z, n)
      {
      }
    }
  }

  /** A set bit just past the last page rules crossing runs out. */
  lemma SentinelStopsCrossing(b: seq<bv8>, total: nat, n: nat)
    requires Bit(b, total)
    ensures forall z :: !CrossingRun(b, total, z, n)
  {
  }

  // ---------- the value returned ----------

  /** i * PAGE_SIZE_4KB as the C expression computes it: a 32-bit product, sign-extended to 64 bits. */
  function IntProduct(i: nat): nat {
    var p := i * PAGE_SIZE % 0x1_0000_0000;
    if p < 0x8000_0000 then p else p + 0xFFFF_FFFF_0000_0000
  }

  /** The address pmm_alloc_pages returns is that of the run if and only if the run starts below 2 GiB; in any case it is the signed
      32-bit value that agrees with it in the low half, extended to 64 bits. */
  lemma IntProductExactIff(i: nat)
    requires i < 0x8000_0000
    ensures IntProduct(i) == i * PAGE_SIZE <==> i * PAGE_SIZE < 0x8000_0000
    ensures IntProduct(i) % 0x1_0000_0000 == i * PAGE_SIZE % 0x1_0000_0000
    ensures IntProduct(i) < 0x8000_0000 || 0xFFFF_FFFF_8000_0000 <= IntProduct(i) < 0x1_0000_0000_0000_0000
  {
  }

  // ---------- the memory map ----------

  /** An entry of the boot loader's memory map; kind 1 is available RAM. */
  datatype Entry = Entry(addr: nat, len: nat, kind: nat)

  const AVAILABLE: nat := 1
  const ONE_MB: nat := 0x100000

  /** Page p is visited by a loop that steps from `addr` by whole pages while below `addr + len`. */
  predicate Steps(addr: nat, len: nat, p: nat) {
    addr / PAGE_SIZE <= p && (p - addr / PAGE_SIZE) * PAGE_SIZE < len
  }

  /** All pages such a loop visits have a bit among the first n. */
  ghost predicate Fits(addr: nat, len: nat, n: nat) {
    forall p: nat :: Steps(addr, len, p) ==> p < n
  }

  /** Those are the pages of the addresses the loop takes. */
  lemma StepsAre(addr: nat, len: nat, p: nat)
    ensures Steps(addr, len, p) <==> exists t: nat :: t * PAGE_SIZE < len && Stride(addr, t) == p
  {
    if Steps(addr, len, p) {
      assert Stride(addr, p - addr / PAGE_SIZE) == p;
    }
  }

  /** The page of the address t strides after `addr`. */
  function Stride(addr: nat, t: nat): nat { (addr + t * PAGE_SIZE) / PAGE_SIZE }

  predicate Usable(e: Entry) { e.kind == AVAILABLE && e.addr >= ONE_MB }

  ghost predicate Offered(m: seq<Entry>, p: nat) {
    exists k :: 0 <= k < |m| && Usable(m[k]) && Steps(m[k].addr, m[k].len, p)
  }

  function MaxEnd(m: seq<Entry>): nat {
    if m == [] then 0
    else
      var e, r := m[|m| - 1], MaxEnd(m[..|m| - 1]);
      if e.kind == AVAILABLE && e.addr + e.len > r then e.addr + e.len else r
  }

  /** For page-aligned ranges the loop visits exactly the pages that lie in the range. */
  lemma AlignedSteps(addr: nat, len: nat, p: nat)
    requires addr % PAGE_SIZE == 0 && len % PAGE_SIZE == 0
    ensures Steps(addr, len, p) <==> addr <= p * PAGE_SIZE && p * PAGE_SIZE + PAGE_SIZE <= addr + len
  {
  }

  lemma {:induction false} EntryBelowMax(m: seq<Entry>, k: nat)
    requires k < |m| && m[k].kind == AVAILABLE
    ensures m[k].addr + m[k].len <= MaxEnd(m)
  {
    if k < |m| - 1 { EntryBelowMax(m[..|m| - 1], k); }
  }

  /** Some available entry ends where memory ends. */
  lemma {:induction false} MaxAttained(m: seq<Entry>)
    ensures MaxEnd(m) == 0 || exists k :: 0 <= k < |m| && m[k].kind == AVAILABLE && m[k].addr + m[k].len == MaxEnd(m)
  {
    if m != [] {
      MaxAttained(m[..|m| - 1]);
      var last := m[|m| - 1];
      assert (last.kind == AVAILABLE && last.addr + last.len == MaxEnd(m)) || MaxEnd(m) == MaxEnd(m[..|m| - 1]);
    }
  }

  /** The number of pages: that of the available entry that ends last. */
  ghost predicate LastPage(m: seq<Entry>, total: nat) {
    && (forall k :: 0 <= k < |m| && m[k].kind == AVAILABLE ==> (m[k].addr + m[k].len) / PAGE_SIZE <= total)
    && (total == 0 || exists k :: 0 <= k < |m| && m[k].kind == AVAILABLE && (m[k].addr + m[k].len) / PAGE_SIZE == total)
  }

  lemma MaxIsLastPage(m: seq<Entry>)
    ensures LastPage(m, MaxEnd(m) / PAGE_SIZE)
  {
    MaxAttained(m);
    forall k | 0 <= k < |m| && m[k].kind == AVAILABLE
      ensures (m[k].addr + m[k].len) / PAGE_SIZE <= MaxEnd(m) / PAGE_SIZE
    {
      EntryBelowMax(m, k);
    }
  }

  ghost predicate PageAligned(m: seq<Entry>) {
    forall k :: 0 <= k < |m| ==> m[k].addr % PAGE_SIZE == 0 && m[k].len % PAGE_SIZE == 0
  }

  /** With a page-aligned map no page at or past the end is offered. */
  lemma OfferedBelowEnd(m: seq<Entry>, p: nat)
    requires PageAligned(m) && Offered(m, p)
    ensures p < MaxEnd(m) / PAGE_SIZE
  {
    var k :| 0 <= k < |m| && Usable(m[k]) && Steps(m[k].addr, m[k].len, p);
    AlignedSteps(m[k].addr, m[k].len, p);
    EntryBelowMax(m, k);
  }

  /** Bytes of bitmap, one bit per page, rounded up. */
  function BitmapSize(m: seq<Entry>): nat { (MaxEnd(m) / PAGE_SIZE + 7) / 8 }

  lemma FullByte(k: nat)
    requires k < 8
    ensures On(0xFF, k)
  {
  }

  lemma OfferedNext(m: seq<Entry>, k: nat, p: nat)
    requires k < |m|
    ensures Offered(m[..k + 1], p) <==> Offered(m[..k], p) || (Usable(m[k]) && Steps(m[k].addr, m[k].len, p))
  {
    var r := m[..k + 1];
    if Offered(m[..k], p) {
      var j :| 0 <= j < k && Usable(m[..k][j]) && Steps(m[..k][j].addr, m[..k][j].len, p);
      assert r[j] == m[..k][j];
    }
    if Usable(m[k]) && Steps(m[k].addr, m[k].len, p) { assert r[k] == m[k]; }
    if Offered(r, p) {
      var j :| 0 <= j < |r| && Usable(r[j]) && Steps(r[j].addr, r[j].len, p);
      assert j < k ==> m[..k][j] == r[j];
    }
  }

  // ---------- what a call does to the clear bits ----------

  /** A page that pmm_alloc_page returned, a run that pmm_alloc_pages returned, or a page that pmm_free_page freed. */
  datatype PageOp = Take(page: nat) | TakeRun(first: nat, count: nat) | Give(page: nat)

  predicate InRun(j: nat, x: nat) { x <= j }

  function PageRun(x: nat, n: nat): set<nat> {
    set j: nat | j < x + n && InRun(j, x)
  }

  function Taken(op: PageOp): set<nat> {
    match op
    case Take(p) => {p}
    case TakeRun(x, n) => PageRun(x, n)
    case Give(_) => {}
  }

  /** Only clear pages are taken. */
  predicate Allowed(free: set<nat>, op: PageOp) { Taken(op) <= free }

  function After(free: set<nat>, op: PageOp): set<nat> {
    if op.Give? then free + {op.page} else free - Taken(op)
  }

  /** The bitmap as init_PMM leaves it over `memory`: below the end of the bitmap every page starts out used, past it
      the bits are what memory held; pages on offer are then clear, except those of kernel image and bitmap. */
  ghost predicate Initialised(b: seq<bv8>, memory: seq<bv8>, m: seq<Entry>, kernelStart: nat, kernelEnd: nat)
    requires kernelStart <= kernelEnd
  {
    forall p: nat :: p < 8 * |b| ==>
      (Bit(b, p) <==> Steps(kernelStart, kernelEnd + BitmapSize(m) - kernelStart, p)
                      || (!Offered(m, p) && (p < 8 * BitmapSize(m) || Bit(memory, p))))
  }

  // ---------- the allocator ----------

  class Pmm {
    const bitmap: array<bv8> // the memory after the kernel image, which the allocator uses as its bitmap
    var total: nat           // total_pages

    ghost predicate Valid()
      reads this
    {
      total <= 8 * bitmap.Length && total < 0x8000_0000
    }

    ghost function Free(): set<nat>
      reads this, bitmap
    {
      FreePages(bitmap[..], total)
    }

    /** The pages whose bit is clear, whether or not they exist. */
    ghost function ClearPages(): set<nat>
      reads this, bitmap
    {
      FreePages(bitmap[..], 8 * bitmap.Length)
    }

    /** What a scan for `count` pages may read: that many bits behind the last page, or none behind a set bit just past it. */
    ghost predicate Scannable(count: nat)
      reads this, bitmap
    {
      total + count <= 8 * bitmap.Length || (total < 8 * bitmap.Length && Bit(bitmap[..], total))
    }

    /** init_PMM over a memory map, with the kernel image at physical addresses `kernelStart` to `kernelEnd` and the
        bitmap right after it. */
    constructor (m: seq<Entry>, kernelStart: nat, kernelEnd: nat, memory: array<bv8>)
      requires kernelStart <= kernelEnd
      requires MaxEnd(m) / PAGE_SIZE < 8 * memory.Length && MaxEnd(m) / PAGE_SIZE < 0x8000_0000
      requires forall p: nat :: Offered(m, p) ==> p < 8 * memory.Length
      requires Fits(kernelStart, kernelEnd + BitmapSize(m) - kernelStart, 8 * memory.Length)
      modifies memory
      ensures Valid() && bitmap == memory && total == MaxEnd(m) / PAGE_SIZE && LastPage(m, total)
      ensures Initialised(bitmap[..], old(memory[..]), m, kernelStart, kernelEnd)
    {
      hide LastPage, On, Steps, MaxEnd;
      bitmap := memory;
      total := 0;
      new;
      total := CountPages(m);
      var size := (total + 7) / 8;
      FillBitmap(size);
      for k := 0 to |m|
        modifies bitmap
        invariant forall p: nat :: p < 8 * bitmap.Length ==>
                    (Bit(bitmap[..], p) <==> !Offered(m[..k], p) && (p < 8 * size || Bit(old(memory[..]), p)))
      {
        ghost var b := bitmap[..];
        if m[k].kind == AVAILABLE && m[k].addr >= ONE_MB {
          assert forall p: nat :: Steps(m[k].addr, m[k].len, p) ==> Offered(m, p);
          WalkPages(m[k].addr, m[k].len, false);
        }
        forall p: nat | p < 8 * bitmap.Length
          ensures Bit(bitmap[..], p) <==> !Offered(m[..k + 1], p) && (p < 8 * size || Bit(old(memory[..]), p))
        {
          OfferedNext(m, k, p);
          assert Bit(b, p) <==> !Offered(m[..k], p) && (p < 8 * size || Bit(old(memory[..]), p));
        }
      }
      assert m[..|m|] == m;
      WalkPages(kernelStart, kernelEnd + size - kernelStart, true);
    }

    /** The first n bytes are filled with ones. */
    method FillBitmap(n: nat)
      requires n <= bitmap.Length
      modifies bitmap
      ensures forall p: nat :: p < 8 * bitmap.Length ==> (Bit(bitmap[..], p) <==> p < 8 * n || Bit(old(bitmap[..]), p))
    {
      for k := 0 to n
        modifies bitmap
        invariant forall i :: 0 <= i < k ==> bitmap[i] == 0xFF
        invariant forall i :: k <= i < bitmap.Length ==> bitmap[i] == old(bitmap[i])
      {
        bitmap[k] := 0xFF;
      }
      forall p: nat | p < 8 * bitmap.Length
        ensures Bit(bitmap[..], p) <==> p < 8 * n || Bit(old(bitmap[..]), p)
      {
        FullByte(p % 8);
      }
    }

    /** The first walk through the memory map: where the available entry that ends last ends. */
    static method CountPages(m: seq<Entry>) returns (n: nat)
      ensures n == MaxEnd(m) / PAGE_SIZE && LastPage(m, n)
    {
      var maxAddr := 0;
      for k := 0 to |m|
        invariant maxAddr == MaxEnd(m[..k])
      {
        assert m[..k + 1][..k] == m[..k];
        if m[k].kind == AVAILABLE {
          if m[k].addr + m[k].len > maxAddr {
            maxAddr := m[k].addr + m[k].len;
          }
        }
      }
      assert m[..|m|] == m;
      MaxIsLastPage(m);
      n := maxAddr / PAGE_SIZE;
    }

    /** The loops that step through an address range page by page, setting or clearing each page's bit. */
    method WalkPages(addr: nat, len: nat, used: bool)
      requires Fits(addr, len, 8 * bitmap.Length)
      modifies bitmap
      ensures forall p: nat :: p < 8 * bitmap.Length ==>
                (Bit(bitmap[..], p) <==> if Steps(addr, len, p) then used else Bit(old(bitmap[..]), p))
    {
      var a := addr;
      ghost var t := 0;
      while a < addr + len
        invariant a == addr + t * PAGE_SIZE && 0 <= t
        invariant forall p: nat :: p < 8 * bitmap.Length ==>
                    (Bit(bitmap[..], p) <==> if Steps(addr, len, p) && p < addr / PAGE_SIZE + t then used else Bit(old(bitmap[..]), p))
      {
        ghost var b := bitmap[..];
        var i := a / PAGE_SIZE;
        assert i == addr / PAGE_SIZE + t;
        assert Steps(addr, len, i);
        if used {
          Set(i);
        } else {
          Reset(i);
        }
        forall p: nat | p < 8 * bitmap.Length
          ensures Bit(bitmap[..], p) <==> if p == i then used else Bit(b, p)
        {
          SetBitAt(b, i, p);
          ClearBitAt(b, i, p);
        }
        a := a + PAGE_SIZE;
        t := t + 1;
      }
    }

    method Set(i: nat)
      requires i / 8 < bitmap.Length
      modifies bitmap
      ensures bitmap[..] == SetBit(old(bitmap[..]), i)
    {
      bitmap[i / 8] := bitmap[i / 8] | Mask(i % 8);
      assert bitmap[..] == SetBit(old(bitmap[..]), i);
    }

    method Reset(i: nat)
      requires i / 8 < bitmap.Length
      modifies bitmap
      ensures bitmap[..] == ClearBit(old(bitmap[..]), i)
    {
      bitmap[i / 8] := bitmap[i / 8] & !Mask(i % 8);
      assert bitmap[..] == ClearBit(old(bitmap[..]), i);
    }

    method Test(i: nat) returns (used: bool)
      requires i / 8 < bitmap.Length
      ensures used == Bit(bitmap[..], i)
    {
      used := bitmap[i / 8] & Mask(i % 8) != 0;
    }

    /** pmm_alloc_page: the lowest free page, marked used; 0 when there is none. */
    method AllocPage() returns (r: nat)
      requires Valid()
      modifies bitmap
      ensures Valid()
      ensures old(Free()) == {} ==> r == 0 && bitmap[..] == old(bitmap[..])
      ensures old(Free()) != {} ==>
                exists i :: i in old(Free()) && (forall j :: j in old(Free()) ==> i <= j) && r == i * PAGE_SIZE && Free() == old(Free()) - {i}
      ensures old(Free()) != {} ==>
                Allowed(old(ClearPages()), Take(r / PAGE_SIZE)) && ClearPages() == After(old(ClearPages()), Take(r / PAGE_SIZE))
    {
      for i: nat := 0 to total
        invariant bitmap[..] == old(bitmap[..])
        invariant forall j: nat :: j < i ==> Bit(bitmap[..], j)
      {
        var used := Test(i);
        if !used {
          assert i in FreePages(bitmap[..], total);
          SetBitFree(bitmap[..], total, i);
          SetBitFree(bitmap[..], 8 * bitmap.Length, i);
          Set(i);
          return i * PAGE_SIZE;
        }
      }
      return 0;
    }

    /** pmm_free_page: clears the page's bit if the page exists and is used. */
    method FreePage(paddr: nat)
      requires Valid()
      modifies bitmap
      ensures Valid()
      ensures Free() == if paddr / PAGE_SIZE < total then old(Free()) + {paddr / PAGE_SIZE} else old(Free())
      ensures ClearPages() == if paddr / PAGE_SIZE < total then After(old(ClearPages()), Give(paddr / PAGE_SIZE)) else old(ClearPages())
    {
      var bit := paddr / PAGE_SIZE;
      if bit >= total {
        return;
      }
      var used := Test(bit);
      if !used {
        return;
      }
      ClearBitFree(bitmap[..], total, bit);
      ClearBitFree(bitmap[..], 8 * bitmap.Length, bit);
      Reset(bit);
    }

    /** pmm_alloc_pages: the lowest clear run that starts at or below the end, marked used. With the bit just past the
        last page set it is the lowest run of free pages. */
    method AllocPages(count: int) returns (r: nat, ghost found: bool, ghost x: nat)
      requires Valid() && (0 < count <= total ==> Scannable(count))
      modifies bitmap
      ensures Valid()
      ensures 0 < count <= total ==> LowestClear(old(bitmap[..]), total, count, found, x)
      ensures 0 < count <= total && Bit(old(bitmap[..]), total) ==> LowestRun(old(bitmap[..]), total, count, found, x)
      ensures count <= 0 || count > total ==> !found
      ensures r == if found then IntProduct(x) else 0
      ensures !found ==> bitmap[..] == old(bitmap[..])
      ensures found ==> Allowed(old(ClearPages()), TakeRun(x, count)) && ClearPages() == After(old(ClearPages()), TakeRun(x, count))
      ensures found ==> Free() == old(Free()) - PageRun(x, count)
    {
      r, found, x := 0, false, 0;
      if count <= 0 || count > total {
        return;
      }
      SentinelLowest(bitmap[..], total, count);
      hide Bit, Clear, FreePages, LowestRun;
      var i: nat := 0;
      while i <= total
        invariant bitmap[..] == old(bitmap[..])
        invariant forall z: nat :: z < i && z <= total ==> !Clear(bitmap[..], z, count)
      {
        var used := Test(i);
        if !used {
          if total + count > 8 * bitmap.Length { SentinelAhead(bitmap[..], total, i); }
          var j: nat := FirstUsed(i, count);
          if j == count {
            RunClear(bitmap[..], i, count);
            SetRun(i, count);
            r, found, x := IntProduct(i), true, i;
            return;
          }
          SkipRun(bitmap[..], i, j, count);
          i := i + j;
        } else {
          SkipRun(bitmap[..], i, 0, count);
        }
        i := i + 1;
      }
    }

    /** The inner scan: the first used page after the clear page i, or `count` if the run is clear. It reads no further
        than the first used page. */
    method FirstUsed(i: nat, count: nat) returns (j: nat)
      requires 0 < count && i < 8 * bitmap.Length && !Bit(bitmap[..], i)
      requires i + count <= 8 * bitmap.Length || exists s: nat :: i < s < 8 * bitmap.Length && Bit(bitmap[..], s)
      ensures 1 <= j <= count && i + j <= 8 * bitmap.Length && forall y: nat :: i <= y < i + j ==> !Bit(bitmap[..], y)
      ensures j < count ==> i + j < 8 * bitmap.Length && Bit(bitmap[..], i + j)
    {
      hide Bit;
      j := 1;
      ghost var s: nat := i + count;
      if i + count > 8 * bitmap.Length {
        s :| i < s < 8 * bitmap.Length && Bit(bitmap[..], s);
      }
      while j < count
        invariant 1 <= j <= count && i + j <= s <= 8 * bitmap.Length && forall y: nat :: i <= y < i + j ==> !Bit(bitmap[..], y)
      {
        var used := Test(i + j);
        if used {
          return;
        }
        j := j + 1;
      }
    }

    method SetRun(i: nat, count: nat)
      requires i + count <= 8 * bitmap.Length
      modifies bitmap
      ensures forall n: nat :: n <= 8 * bitmap.Length ==> FreePages(bitmap[..], n) == FreePages(old(bitmap[..]), n) - PageRun(i, count)
    {
      hide Bit, SetBit, FreePages;
      for k: nat := 0 to count
        invariant forall n: nat :: n <= 8 * bitmap.Length ==> FreePages(bitmap[..], n) == FreePages(old(bitmap[..]), n) - PageRun(i, k)
      {
        ghost var b := bitmap[..];
        Set(i + k);
        assert PageRun(i, k + 1) == PageRun(i, k) + {i + k};
        forall n: nat | n <= 8 * bitmap.Length
          ensures FreePages(bitmap[..], n) == FreePages(b, n) - {i + k}
        {
          SetBitFree(b, n, i + k);
        }
      }
    }
  }

  /** The scan for n pages, given that the bit just past the last page is set. */
  lemma SentinelLowest(b: seq<bv8>, total: nat, n: nat)
    requires 1 <= n <= total
    ensures Bit(b, total) ==> forall found, x :: LowestClear(b, total, n, found, x) ==> LowestRun(b, total, n, found, x)
  {
    if Bit(b, total) {
      SentinelStopsCrossing(b, total, n);
      hide LowestClear, LowestRun, CrossingRun;
      forall found, x | LowestClear(b, total, n, found, x)
        ensures LowestRun(b, total, n, found, x)
      {
        ScanCorrectIff(b, total, n, found, x);
      }
    }
  }

  /** A clear page at or below the set bit lies below it. */
  lemma SentinelAhead(b: seq<bv8>, total: nat, i: nat)
    requires total < 8 * |b| && Bit(b, total) && i <= total && !Bit(b, i)
    ensures exists s: nat :: i < s < 8 * |b| && Bit(b, s)
  {
    assert i < total;
  }

  lemma RunClear(b: seq<bv8>, i: nat, n: nat)
    requires i + n <= 8 * |b| && forall y: nat :: i <= y < i + n ==> !Bit(b, y)
    ensures Clear(b, i, n) && PageRun(i, n) <= FreePages(b, 8 * |b|)
  {
  }

  /** Every run that starts between a clear page and the used page that ends it contains that used page, so the jump
      past it skips no candidate. */
  lemma SkipRun(b: seq<bv8>, i: nat, j: nat, n: nat)
    requires j < n && Bit(b, i + j)
    ensures forall z :: i <= z <= i + j ==> !Clear(b, z, n)
  {
  }

  // ---------- runs ----------

  /** Each call changes the clear pages as the methods of the allocator say. */
  ghost predicate Follows(free: set<nat>, ops: seq<PageOp>)
    decreases |ops|
  {
    ops == [] || (Allowed(free, ops[0]) && Follows(After(free, ops[0]), ops[1..]))
  }

  /** A page that is not clear is not handed out before it is freed. */
  lemma {:induction false} GivenBefore(free: set<nat>, ops: seq<PageOp>, j: nat, p: nat)
    requires Follows(free, ops) && p !in free && j < |ops| && p in Taken(ops[j])
    ensures exists k: nat :: k < j && ops[k] == Give(p)
    decreases |ops|
  {
    if ops[0] == Give(p) {
      assert 0 < j;
    } else {
      GivenBefore(After(free, ops[0]), ops[1..], j - 1, p);
      var k: nat :| k < j - 1 && ops[1..][k] == Give(p);
      assert ops[k + 1] == Give(p);
    }
  }

  /** No page is handed out twice, alone or as part of a run, without having been freed in between. */
  lemma {:induction false} NeverTakenTwice(free: set<nat>, ops: seq<PageOp>, i: nat, j: nat, p: nat)
    requires Follows(free, ops) && i < j < |ops| && p in Taken(ops[i]) && p in Taken(ops[j])
    ensures exists k: nat :: i < k < j && ops[k] == Give(p)
    decreases |ops|
  {
    if i == 0 {
      GivenBefore(After(free, ops[0]), ops[1..], j - 1, p);
      var k: nat :| k < j - 1 && ops[1..][k] == Give(p);
      assert ops[k + 1] == Give(p);
    } else {
      NeverTakenTwice(After(free, ops[0]), ops[1..], i - 1, j - 1, p);
      var k: nat :| i - 1 < k < j - 1 && ops[1..][k] == Give(p);
      assert ops[k + 1] == Give(p);
    }
  }

  // ---------- a scan across the end ----------

  /** After init_PMM the bit just past the last page is set exactly if the bitmap has padding bits, kernel image or bitmap
      reach that far, or memory happened to hold a set bit there. */
  lemma SentinelIff(b: seq<bv8>, memory: seq<bv8>, m: seq<Entry>, kernelStart: nat, kernelEnd: nat)
    requires kernelStart <= kernelEnd && |b| == |memory| && PageAligned(m) && MaxEnd(m) / PAGE_SIZE < 8 * |b|
    requires Initialised(b, memory, m, kernelStart, kernelEnd)
    ensures var total := MaxEnd(m) / PAGE_SIZE;
            Bit(b, total) <==> total % 8 != 0 || Steps(kernelStart, kernelEnd + BitmapSize(m) - kernelStart, total) || Bit(memory, total)
  {
    var total := MaxEnd(m) / PAGE_SIZE;
    if Offered(m, total) { OfferedBelowEnd(m, total); }
    assert total < 8 * BitmapSize(m) <==> total % 8 != 0;
  }

  /** One available region of eight pages at 1 MB. */
  const EXAMPLE_MAP: seq<Entry> := [Entry(0x10_0000, 0x8000, AVAILABLE)]

  /** Without the set bit the scan can hand out a page that does not exist. Memory ends at page 264, a multiple of 8, so
      the bitmap has no padding; kernel image and bitmap take four pages; the memory after the bitmap is zero; and five
      pages are requested. What the contracts of init_PMM and pmm_alloc_pages then allow is only the run from 260. */
  lemma CrossingExample(b: seq<bv8>, memory: seq<bv8>, found: bool, x: nat)
    requires |b| == |memory| >= 34 && forall i :: 0 <= i < |memory| ==> memory[i] == 0
    requires Initialised(b, memory, EXAMPLE_MAP, 0x10_0000, 0x10_3000)
    requires LowestClear(b, 264, 5, found, x)
    ensures MaxEnd(EXAMPLE_MAP) / PAGE_SIZE == 264 && found && x == 260 && !LowestRun(b, 264, 5, found, x)
  {
    ExampleBits(b, memory);
    hide Initialised;
    assert Clear(b, 260, 5);
    forall z | 0 <= z < 260
      ensures !Clear(b, z, 5)
    {
      assert Bit(b, z);
    }
  }

  lemma ExampleBits(b: seq<bv8>, memory: seq<bv8>)
    requires |b| == |memory| >= 34 && forall i :: 0 <= i < |memory| ==> memory[i] == 0
    requires Initialised(b, memory, EXAMPLE_MAP, 0x10_0000, 0x10_3000)
    ensures MaxEnd(EXAMPLE_MAP) == 0x10_8000 && forall p: nat :: p < 272 ==> (Bit(b, p) <==> p < 260)
  {
    var m := EXAMPLE_MAP;
    assert m[..0] == [];
    assert MaxEnd(m) == 0x10_8000;
    assert 0x10_8000 / PAGE_SIZE == 264;
    forall p: nat | p < 272
      ensures Bit(b, p) <==> p < 260
    {
      assert Offered(m, p) <==> 256 <= p < 264 by { assert Offered(m, p) <==> Steps(m[0].addr, m[0].len, p); }
      assert 264 <= p ==> !Bit(memory, p);
    }
  }
}
