/** Geometry of the buddy system: aligned power-of-two blocks of pages, and the exclusive-or that finds a buddy. */
module Blocks {
  import opened Basics

  const MAX_ORDERS: nat := 12
  const TOTAL_PAGES: nat := 4096
  const HEAP_START: nat := 0xFFFF_E000_0000_0000

  function Pow2(k: nat): (r: nat)
    ensures 1 <= r
  {
    if k == 0 then 1 else 2 * Pow2(k - 1)
  }

  /** `order` is the exponent of the block's length in pages. */
  datatype Block = Block(page: nat, order: nat)

  ghost predicate Placed(b: Block) {
    b.order <= MAX_ORDERS && b.page % Pow2(b.order) == 0 && b.page + Pow2(b.order) <= TOTAL_PAGES
  }

  ghost predicate Contains(b: Block, x: int) {
    b.page <= x < b.page + Pow2(b.order)
  }

  ghost predicate Apart(a: Block, b: Block) {
    a.page + Pow2(a.order) <= b.page || b.page + Pow2(b.order) <= a.page
  }

  ghost predicate Inside(a: Block, b: Block) {
    b.page <= a.page && a.page + Pow2(a.order) <= b.page + Pow2(b.order)
  }

  /** The buddy in page arithmetic: the other half of the enclosing block of the next order. */
  function Buddy(b: Block): (r: Block)
    ensures r.order == b.order
  {
    if b.page % Pow2(b.order + 1) == 0 then Block(b.page + Pow2(b.order), b.order)
    else if b.page >= Pow2(b.order) then Block(b.page - Pow2(b.order), b.order)
    else b
  }

  function Parent(b: Block): Block {
    Block(if Buddy(b).page < b.page then Buddy(b).page else b.page, b.order + 1)
  }

  function Lower(b: Block): Block
    requires 1 <= b.order
  {
    Block(b.page, b.order - 1)
  }

  function Upper(b: Block): Block
    requires 1 <= b.order
  {
    Block(b.page + Pow2(b.order - 1), b.order - 1)
  }

  lemma Pow2Step(k: nat)
    ensures Pow2(k + 1) == 2 * Pow2(k)
  {
  }

  lemma Pow2Values()
    ensures Pow2(0) == 1 && Pow2(1) == 2 && Pow2(4) == 16 && Pow2(11) == 2048 && Pow2(12) == 4096
  {
    assert Pow2(2) == 4 && Pow2(3) == 8;
    assert Pow2(5) == 32 && Pow2(6) == 64 && Pow2(7) == 128;
    assert Pow2(8) == 256 && Pow2(9) == 512 && Pow2(10) == 1024;
  }

  lemma {:induction false} Pow2Adds(a: nat, b: nat)
    ensures Pow2(a + b) == Pow2(a) * Pow2(b)
  {
    if a > 0 {
      Pow2Adds(a - 1, b);
      calc {
        Pow2(a + b);
        2 * Pow2(a - 1 + b);
        2 * (Pow2(a - 1) * Pow2(b));
        (2 * Pow2(a - 1)) * Pow2(b);
      }
    }
  }

  lemma Pow2Monotone(a: nat, b: nat)
    requires a <= b
    ensures Pow2(a) <= Pow2(b)
  {
    Pow2Adds(a, b - a);
    assert Pow2(a) * 1 <= Pow2(a) * Pow2(b - a);
  }

  /** A multiple of m is a multiple of n when n divides m. */
  lemma MultipleOfFactor(x: nat, n: nat, c: nat)
    requires n >= 1 && c >= 1 && n * c >= 1 && x % (n * c) == 0
    ensures x % n == 0
  {
    var q := x / (n * c);
    assert x == (n * c) * q == n * (c * q);
    ModOfMultiple(n, c * q);
  }

  lemma ModOfMultiple(n: nat, q: nat)
    requires n >= 1
    ensures (n * q) % n == 0 && (n * q) / n == q
  {
    if q > 0 {
      ModOfMultiple(n, q - 1);
      assert n * q == n * (q - 1) + n;
      DivModPlusOne(n * (q - 1), n);
    }
  }

  lemma DivModPlusOne(x: nat, n: nat)
    requires n >= 1
    ensures (x + n) % n == x % n && (x + n) / n == x / n + 1
  {
    var q, r := x / n, x % n;
    assert x + n == n * (q + 1) + r by { assert x == n * q + r; }
    DivModUnique(x + n, n, q + 1, r);
  }

  lemma Gap(n: nat, a: int, b: int)
    requires a < b
    ensures n * a + n <= n * b
    decreases b - a
  {
    assert n * b == n * (b - 1) + n;
    if a + 1 < b { Gap(n, a, b - 1); }
  }

  lemma DivModUnique(x: int, n: nat, q: int, r: int)
    requires n >= 1 && x == n * q + r && 0 <= r < n
    ensures x / n == q && x % n == r
  {
    var q' := x / n;
    if q' < q { Gap(n, q', q); }
    if q < q' { Gap(n, q, q'); }
  }

  /** Two aligned blocks are either apart or one lies inside the other. */
  lemma Nested(a: Block, b: Block)
    requires a.order <= b.order
    requires a.page % Pow2(a.order) == 0 && b.page % Pow2(b.order) == 0
    ensures Apart(a, b) || Inside(a, b)
  {
    hide Pow2, Apart, Inside;
    Pow2Adds(a.order, b.order - a.order);
    NestedIn(a, b, Pow2(a.order), Pow2(b.order - a.order));
  }

  lemma NestedIn(a: Block, b: Block, m: nat, c: nat)
    requires m == Pow2(a.order) >= 1 && c >= 1 && Pow2(b.order) == m * c
    requires a.page % m == 0 && b.page % (m * c) == 0
    ensures Apart(a, b) || Inside(a, b)
  {
    hide Pow2;
    assert m * c >= 1;
    var i := a.page / m;
    assert a.page == m * i;
    Reassociate(b.page, m, c);
    NestedMultiples(m, i, c * (b.page / (m * c)), c);
  }

  lemma Reassociate(x: nat, m: nat, c: nat)
    requires m * c >= 1 && x % (m * c) == 0
    ensures x == m * (c * (x / (m * c)))
  {
    var j := x / (m * c);
    assert x == (m * c) * j;
    assert (m * c) * j == m * (c * j);
  }

  lemma NestedMultiples(m: nat, i: nat, s: nat, c: nat)
    ensures m * i + m <= m * s || m * s + m * c <= m * i || (m * s <= m * i && m * i + m <= m * s + m * c)
  {
    assert m * (s + c) == m * s + m * c;
    if i < s {
      Gap(m, i, s);
    } else {
      if s < i { Gap(m, s, i); }
      if i < s + c { Gap(m, i, s + c); }
      if s + c < i { Gap(m, s + c, i); }
    }
  }

  lemma SameStart(a: Block, b: Block)
    requires a.order <= b.order
    requires a.page % Pow2(a.order) == 0 && b.page % Pow2(b.order) == 0
    requires !Apart(a, b)
    ensures Inside(a, b)
    ensures a.order == b.order ==> a == b
  {
    Nested(a, b);
  }

  /** A block splits into two halves that are each other's buddies. */
  lemma Halves(b: Block)
    requires 1 <= b.order && Placed(b)
    ensures Placed(Lower(b)) && Placed(Upper(b)) && Buddy(Lower(b)) == Upper(b) && Buddy(Upper(b)) == Lower(b)
  {
    var n := Pow2(b.order - 1);
    assert Pow2(b.order) == n * 2;
    HalvesAligned(b.page, n);
  }

  lemma HalvesAligned(p: nat, n: nat)
    requires n >= 1 && p % (n * 2) == 0
    ensures p % n == 0 && (p + n) % n == 0 && (p + n) % (n * 2) == n
  {
    MultipleOfFactor(p, n, 2);
    DivModPlusOne(p, n);
    DivModUnique(p + n, n * 2, p / (n * 2), n);
  }

  /** Parity of the block's ordinal decides which half of the parent it is. */
  lemma Parity(p: nat, n: nat)
    requires n >= 1 && p % n == 0
    ensures (p / n) % 2 == 0 <==> p % (n * 2) == 0
    ensures (p / n) % 2 != 0 ==> n <= p && (p - n) % (n * 2) == 0
  {
    var q := p / n;
    var h := q / 2;
    assert p == n * q;
    assert n * (2 * h) == (n * 2) * h;
    if q % 2 == 0 {
      DivModUnique(p, n * 2, h, 0);
    } else {
      assert n * (2 * h + 1) == n * (2 * h) + n;
      DivModUnique(p, n * 2, h, n);
      DivModUnique(p - n, n * 2, h, 0);
    }
  }

  /** A block below the top order and its buddy are placed, distinct halves of a placed parent. */
  lemma BuddyHalves(b: Block)
    requires b.order < MAX_ORDERS && Placed(b)
    ensures Placed(Buddy(b)) && Placed(Parent(b)) && Buddy(Buddy(b)) == b && Buddy(b) != b
    ensures Parent(b).order == b.order + 1
    ensures Parent(Buddy(b)) == Parent(b)
    ensures {b, Buddy(b)} == {Lower(Parent(b)), Upper(Parent(b))}
  {
    var n := Pow2(b.order);
    assert Pow2(b.order + 1) == n * 2;
    Parity(b.page, n);
    var p := Parent(b);
    assert p.page % (n * 2) == 0;
    ParentFits(p.page, b.order);
    Halves(p);
  }

  lemma ParentFits(p: nat, k: nat)
    requires k < MAX_ORDERS && p % Pow2(k + 1) == 0 && p < TOTAL_PAGES
    ensures p + Pow2(k + 1) <= TOTAL_PAGES
  {
    Pow2Values();
    Pow2Monotone(k + 1, MAX_ORDERS);
    Pow2Adds(k + 1, MAX_ORDERS - k - 1);
    Nested(Block(p, k + 1), Block(0, MAX_ORDERS));
  }

  /** Bitwise exclusive-or on natural numbers, the operator the kernel applies to block addresses. */
  function Xor(a: nat, b: nat): nat {
    if a == 0 && b == 0 then 0
    else 2 * Xor(a / 2, b / 2) + (if a % 2 != b % 2 then 1 else 0)
  }

  lemma {:induction false} XorZero(a: nat)
    ensures Xor(a, 0) == a
  {
    if a != 0 { XorZero(a / 2); }
  }

  /** Exclusive-or with a single bit flips that bit. */
  lemma {:induction false} XorBit(a: nat, k: nat)
    ensures Xor(a, Pow2(k)) == if (a / Pow2(k)) % 2 == 0 then a + Pow2(k) else a - Pow2(k)
    ensures (a / Pow2(k)) % 2 != 0 ==> a >= Pow2(k)
  {
    if k == 0 {
      XorZero(a / 2);
    } else {
      XorBit(a / 2, k - 1);
      HalveTwice(a, Pow2(k - 1));
      assert Pow2(k) / 2 == Pow2(k - 1) && Pow2(k) % 2 == 0;
    }
  }

  lemma HalveTwice(a: nat, n: nat)
    requires n >= 1
    ensures (a / 2) / n == a / (2 * n)
  {
    var q, r := a / (2 * n), a % (2 * n);
    assert a == (2 * n) * q + r;
    assert a / 2 == n * q + r / 2 by { assert a == 2 * (n * q) + r; }
    DivModUnique(a / 2, n, q, r / 2);
  }

  function PageAddress(page: nat): nat { HEAP_START + page * PAGE_SIZE }

  /** The heap base is a multiple of twice every block size below the top order. */
  lemma HeapStartAligned(k: nat) returns (c: nat)
    requires k < MAX_ORDERS
    ensures HEAP_START == 2 * (Pow2(12 + k) * c)
  {
    Pow2Values();
    Pow2Adds(12, 12);
    Pow2Adds(12 + k, 12 - k);
    var c0 := 0x7F_FFF0_0000;
    assert HEAP_START == 2 * (Pow2(24) * c0);
    assert Pow2(24) * c0 == Pow2(12 + k) * (Pow2(12 - k) * c0);
    c := Pow2(12 - k) * c0;
  }

  lemma BitOfSum(n: nat, c: nat, x: nat)
    requires n >= 1
    ensures ((2 * (n * c) + x) / n) % 2 == (x / n) % 2
  {
    var q, r := x / n, x % n;
    assert x == n * q + r;
    assert 2 * (n * c) + x == n * (2 * c + q) + r;
    DivModUnique(2 * (n * c) + x, n, 2 * c + q, r);
  }

  /** The bit of the page's address that the kernel flips is the parity of the block's ordinal. */
  lemma AddressBit(b: Block)
    requires b.order < MAX_ORDERS && Placed(b)
    ensures Pow2(12 + b.order) == Pow2(b.order) * PAGE_SIZE
    ensures (PageAddress(b.page) / Pow2(12 + b.order)) % 2 == (b.page / Pow2(b.order)) % 2
  {
    var n := Pow2(b.order);
    Pow2Values();
    Pow2Adds(12, b.order);
    var c := HeapStartAligned(b.order);
    BitOfSum(n * PAGE_SIZE, c, b.page * PAGE_SIZE);
    ScaledQuotient(b.page, n, PAGE_SIZE);
  }

  /** The address the kernel computes with exclusive-or is the address of the buddy. */
  lemma XorIsBuddy(b: Block)
    requires b.order < MAX_ORDERS && Placed(b)
    ensures Xor(PageAddress(b.page), Pow2(b.order) * PAGE_SIZE) == PageAddress(Buddy(b).page)
  {
    AddressBit(b);
    XorBit(PageAddress(b.page), 12 + b.order);
    Parity(b.page, Pow2(b.order));
    assert Pow2(b.order + 1) == Pow2(b.order) * 2;
  }

  lemma ScaledQuotient(p: nat, n: nat, s: nat)
    requires n >= 1 && s >= 1 && p % n == 0
    ensures n * s >= 1 && (p * s) / (n * s) == p / n
  {
    var q := p / n;
    assert n * s >= 1 * s;
    assert p * s == (n * q) * s == (n * s) * q;
    ModOfMultiple(n * s, q);
  }
}
