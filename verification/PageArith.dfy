/** Page sizes, virtual page numbers and page-table-entry fields, over natural
    numbers.  A `usize` is a natural number below `WORD`; shifts and masks are
    written as division and remainder by powers of two, and every operation
    that wraps in the kernel takes an explicit remainder. */
module PageArith {
  import opened Arith

  /** Physical addresses reachable from a 54-bit entry. */
  const PHYS: nat := 0x100_0000_0000_0000
  /** One more than `UNRESERVED_BITS_MASK`. */
  const PTE_LIMIT: nat := 0x40_0000_0000_0000
  const MAX_LEVELS: nat := 5
  const ENTRY_COUNT: nat := 512
  const PAGE: nat := 0x1000
  const MEGAPAGE: nat := 0x20_0000

  /** How the page sizes are related, for proofs that do not need their values. */
  lemma PageSizes()
    ensures 0 < PAGE < MEGAPAGE < WORD && MEGAPAGE == PAGE * ENTRY_COUNT && ENTRY_COUNT > 1
    ensures Size(0) == PAGE && Size(1) == MEGAPAGE
    ensures 2 * PAGE <= MEGAPAGE
  {
  }

  /** Bytes covered by one entry at level `l` (`get_vpn_size`); `Size(LEVELS)` is the
      whole address space. */
  function Size(l: nat): (s: nat)
    requires l <= MAX_LEVELS
    ensures s > 0
  {
    match l
    case 0 => 0x1000
    case 1 => 0x20_0000
    case 2 => 0x4000_0000
    case 3 => 0x80_0000_0000
    case 4 => 0x1_0000_0000_0000
    case _ => 0x200_0000_0000_0000
  }

  /** `get_vpn_number`. */
  function Vpn(x: nat, l: nat): (d: nat)
    requires l < MAX_LEVELS
    ensures d < ENTRY_COUNT
  {
    (x / Size(l)) % ENTRY_COUNT
  }

  lemma SizeStep(l: nat)
    requires 0 < l <= MAX_LEVELS
    ensures Size(l) == ENTRY_COUNT * Size(l - 1)
    ensures Size(l) % Size(l - 1) == 0
    ensures Size(l) % PAGE == 0 && Size(l - 1) % PAGE == 0
  {
  }

  /** Pages, and entry units of a quarter of a byte, in a slot. */
  lemma SizeInPages(l: nat)
    requires l <= MAX_LEVELS
    ensures Size(l) == Size(l) / PAGE * 4096 && Size(l) / 4 == Size(l) / PAGE * 1024
  {
  }

  /** Dividing in two steps: the digit of weight `s` in base 512. */
  lemma DigitOf(x: nat, s: nat)
    requires s > 0
    ensures (x / s) % ENTRY_COUNT == (x % (ENTRY_COUNT * s)) / s
    ensures x % (ENTRY_COUNT * s) == ((x / s) % ENTRY_COUNT) * s + x % s
    ensures (x % (ENTRY_COUNT * s)) % s == x % s
  {
    var y, m := x / s, x % s;
    Digits(y / ENTRY_COUNT, y % ENTRY_COUNT, m, s);
    assert x == y * s + m;
  }

  lemma Digits(q: nat, d: nat, m: nat, s: nat)
    requires d < ENTRY_COUNT && m < s
    ensures var x := (ENTRY_COUNT * q + d) * s + m;
            x % (ENTRY_COUNT * s) == d * s + m && (d * s + m) / s == d && (d * s + m) % s == m
  {
    var x := (ENTRY_COUNT * q + d) * s + m;
    Distribute(ENTRY_COUNT * q, d, s);
    assert ENTRY_COUNT * q * s == q * (ENTRY_COUNT * s);
    Distribute(ENTRY_COUNT, d, s);
    MulSign(ENTRY_COUNT - d, s);
    DivUnique(x, ENTRY_COUNT * s, q, d * s + m);
    DivUnique(d * s + m, s, d, m);
  }

  /** The page number at level `l` is the leading digit of the offset in the enclosing slot. */
  lemma VpnIsDigit(x: nat, l: nat)
    requires l < MAX_LEVELS
    ensures Vpn(x, l) == (x % Size(l + 1)) / Size(l)
    ensures x % Size(l + 1) == Vpn(x, l) * Size(l) + x % Size(l)
    ensures (x % Size(l + 1)) % Size(l) == x % Size(l)
  {
    SizeStep(l + 1);
    DigitOf(x, Size(l));
  }

  lemma DigitBound(off: nat, l: nat)
    requires 0 < l <= MAX_LEVELS && off < Size(l)
    ensures off / Size(l - 1) < ENTRY_COUNT
    ensures off % Size(l - 1) < Size(l - 1)
    ensures off == (off / Size(l - 1)) * Size(l - 1) + off % Size(l - 1)
  {
    match l {
      case 1 =>
      case 2 =>
      case 3 =>
      case 4 =>
      case 5 =>
    }
  }

  /** Bitwise or. */
  function Or(a: nat, b: nat): nat
    decreases a + b
  {
    if a == 0 then b
    else if b == 0 then a
    else (if a % 2 == 1 || b % 2 == 1 then 1 else 0) + 2 * Or(a / 2, b / 2)
  }

  function Pow2(k: nat): (p: nat)
    ensures p > 0
  {
    if k == 0 then 1 else 2 * Pow2(k - 1)
  }

  lemma HalfMultiple(a: nat, p: nat)
    requires p > 0 && a % (2 * p) == 0
    ensures a % 2 == 0 && (a / 2) % p == 0
  {
    var q := a / (2 * p);
    assert a == q * (2 * p);
    assert a == 2 * (q * p);
    assert a / 2 == q * p + 0;
    ModOfMultiple(q, p);
  }

  /** An or of numbers with no common bits is a sum. */
  lemma {:induction false} OrIsSum(a: nat, b: nat, k: nat)
    requires a % Pow2(k) == 0 && b < Pow2(k)
    ensures Or(a, b) == a + b
    decreases k
  {
    if k > 0 && a > 0 && b > 0 {
      HalfMultiple(a, Pow2(k - 1));
      OrIsSum(a / 2, b / 2, k - 1);
    }
  }

  lemma OrHalf(a: nat, b: nat)
    requires a > 0 && b > 0 && a % 2 == 0
    ensures Or(a, b) / 2 == Or(a / 2, b / 2) && Or(a, b) % 2 == b % 2
  {
  }

  /** The low bits of an or whose first operand has none are those of the second. */
  lemma {:induction false} OrLow(a: nat, b: nat, k: nat)
    requires a % Pow2(k) == 0
    ensures Or(a, b) % Pow2(k) == b % Pow2(k)
    decreases k
  {
    if a == 0 {
      assert Or(a, b) == b;
    } else if b == 0 {
      assert Or(a, b) == a;
      DivUnique(0, Pow2(k), 0, 0);
    } else if k > 0 {
      var p := Pow2(k - 1);
      HalfMultiple(a, p);
      OrHalf(a, b);
      OrLow(a / 2, b / 2, k - 1);
      hide Or;
      HalfRemainder(Or(a, b), p);
      HalfRemainder(b, p);
    }
  }

  lemma HalfRemainder(x: nat, p: nat)
    requires p > 0
    ensures x % (2 * p) == 2 * ((x / 2) % p) + x % 2
  {
    var y := x / 2;
    assert (y / p) * (2 * p) == 2 * ((y / p) * p);
    DivUnique(x, 2 * p, y / p, 2 * (y % p) + x % 2);
  }

  lemma OrFlags(a: nat, flags: nat)
    requires a % 256 == 0 && flags < 256
    ensures Or(a, flags) == a + flags
  {
    assert Pow2(8) == 256 by {
      assert Pow2(4) == 16;
    }
    OrIsSum(a, flags, 8);
  }

  // ---- fields of an entry ----

  predicate IsValid(v: nat) { v % 2 == 1 }

  predicate IsRead(v: nat) { (v / 2) % 2 == 1 }

  predicate IsWrite(v: nat) { (v / 4) % 2 == 1 }

  predicate IsExecute(v: nat) { (v / 8) % 2 == 1 }

  /** The bits of an entry: each test says that adding the bit changes nothing. */
  lemma EntryBits(v: nat)
    ensures IsValid(v) <==> Or(v, 0x1) == v
    ensures IsRead(v) <==> Or(v, 0x2) == v
    ensures IsWrite(v) <==> Or(v, 0x4) == v
    ensures IsExecute(v) <==> Or(v, 0x8) == v
  {
    hide Or;
    BitZero(v);
    BitZero(v / 2);
    BitZero(v / 2 / 2);
    BitZero(v / 2 / 2 / 2);
    BitUp(v, 0x1);
    BitUp(v, 0x2);
    BitUp(v / 2, 0x1);
    BitUp(v, 0x4);
    BitUp(v / 2, 0x2);
    BitUp(v / 2 / 2, 0x1);
    assert v / 4 == v / 2 / 2 && v / 8 == v / 2 / 2 / 2;
  }

  lemma BitZero(v: nat)
    ensures v % 2 == 1 <==> Or(v, 0x1) == v
  {
    assert Or(v / 2, 0) == v / 2;
  }

  lemma BitUp(v: nat, b: nat)
    ensures Or(v, 2 * b) == v <==> Or(v / 2, b) == v / 2
  {
    assert (2 * b) / 2 == b && (2 * b) % 2 == 0;
  }

  /** `Entry::is_leaf`. */
  predicate IsLeaf(v: nat)
  {
    IsRead(v) || IsExecute(v) || !IsValid(v) || v / 256 == 0
  }

  /** `Entry::address`: bits 8 and above, shifted left by two. */
  function Address(v: nat): nat
  {
    (v / 256 * 256 * 4) % WORD
  }

  /** Physical page number field times the page size. */
  function Phys(v: nat): nat
  {
    v / 1024 * 4096
  }
}
