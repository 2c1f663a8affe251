/** `query`: the answer the code gives on any tree, and how it relates to the meaning of the
    tree. */
module PageQuery {
  import opened Options
  import opened Arith
  import opened PageArith
  import opened PageTree
  import opened PageMap
  import opened PageLimits
  import opened PageSuper

  datatype LookupError = PageFault | ReservedBitSet | Invalid | WriteOnly

  /** `Panic` is the failing misaligned-superpage assertion, `Outside` a table pointer that leads
      out of the tables in memory. */
  datatype QueryResult = Ok(pa: nat) | Err(error: LookupError) | Panic | Outside

  const BIT60: nat := 0x1000_0000_0000_0000

  // ---- assembling the physical address ----

  /** `set_vpn_number`. */
  function SetVpn(x: nat, j: nat, value: nat): nat
    requires j < MAX_LEVELS
  {
    VpnIsDigit(x, j);
    assert x % Size(j + 1) <= x;
    x - Vpn(x, j) * Size(j) + value * Size(j)
  }

  /** Page numbers below `i` from the virtual address, the rest from the entry. */
  function Assembled(v: nat, va: nat, i: nat, levels: nat): int
    requires i < levels <= MAX_LEVELS
  {
    var w := (v * 4) % WORD;
    va % Size(i) + w % Size(levels) - w % Size(i)
  }

  /** Setting the digit above a number that is below its weight. */
  lemma SetHigh(x: nat, j: nat, value: nat)
    requires j < MAX_LEVELS && x < Size(j)
    ensures SetVpn(x, j, value) == x + value * Size(j)
  {
    VpnIsDigit(x, j);
    SizeStep(j + 1);
    assert x % Size(j) == x && x % Size(j + 1) == x;
  }

  /** Replacing the topmost digit. */
  lemma SetTop(low: nat, d: nat, j: nat, value: nat)
    requires j < MAX_LEVELS && low < Size(j) && d < ENTRY_COUNT
    ensures SetVpn(d * Size(j) + low, j, value) == low + value * Size(j)
  {
    hide Size;
    DivUnique(d * Size(j) + low, Size(j), d, low);
  }

  /** The three loops at the end of `query`. */
  method Assemble(v: nat, va: nat, i: nat, levels: nat) returns (pa: nat)
    requires i < levels <= MAX_LEVELS
    ensures pa == Assembled(v, va, i, levels)
  {
    pa := va % PAGE;
    var j := 0;
    while j <= i
      invariant 0 <= j <= i + 1
      invariant pa == va % Size(j)
    {
      SetHigh(pa, j, Vpn(va, j));
      VpnIsDigit(va, j);
      pa := SetVpn(pa, j, Vpn(va, j));
      j := j + 1;
    }
    var w := (v * 4) % WORD;
    j := i;
    while j <= levels - 1
      invariant i <= j <= levels
      invariant j == i ==> pa == va % Size(i + 1)
      invariant j > i ==> pa == va % Size(i) + w % Size(j) - w % Size(i) < Size(j)
    {
      if j == i {
        AssembleFirst(v, va, i);
      } else {
        AssembleStep(v, va, i, j, pa);
      }
      pa := SetVpn(pa, j, Vpn(w, j));
      j := j + 1;
    }
  }

  lemma AssembleFirst(v: nat, va: nat, i: nat)
    requires i < MAX_LEVELS
    ensures var w := (v * 4) % WORD;
            SetVpn(va % Size(i + 1), i, Vpn(w, i)) == va % Size(i) + w % Size(i + 1) - w % Size(i) < Size(i + 1)
  {
    var w := (v * 4) % WORD;
    VpnIsDigit(va, i);
    VpnIsDigit(w, i);
    SetTop(va % Size(i), Vpn(va, i), i, Vpn(w, i));
    SizeStep(i + 1);
    MulSign(ENTRY_COUNT - Vpn(w, i), Size(i));
    Distribute(ENTRY_COUNT, Vpn(w, i), Size(i));
  }

  lemma AssembleStep(v: nat, va: nat, i: nat, j: nat, pa: nat)
    requires i < j < MAX_LEVELS
    requires var w := (v * 4) % WORD; pa == va % Size(i) + w % Size(j) - w % Size(i) && pa < Size(j)
    ensures var w := (v * 4) % WORD;
            SetVpn(pa, j, Vpn(w, j)) == va % Size(i) + w % Size(j + 1) - w % Size(i) < Size(j + 1)
  {
    var w := (v * 4) % WORD;
    SetHigh(pa, j, Vpn(w, j));
    VpnIsDigit(w, j);
    SizeStep(j + 1);
    MulSign(ENTRY_COUNT - Vpn(w, j), Size(j));
    Distribute(ENTRY_COUNT, Vpn(w, j), Size(j));
  }

  // ---- the answer on any tree ----

  /** The loop of assertions on a leaf found at level `i`. */
  predicate Aligned(v: nat, i: nat)
    requires i <= MAX_LEVELS
  {
    forall j :: 0 <= j < i ==> Vpn(Address(v), j) == 0
  }

  /** The checks of `query` on the word at which the walk stops, in order. */
  function LeafAnswer(v: nat, va: nat, i: nat, levels: nat): QueryResult
    requires i < levels <= MAX_LEVELS
  {
    if !IsValid(v) then Err(Invalid)
    else if !IsRead(v) && (v / 4) % 2 * 4 == 1 then Err(WriteOnly)
    else if (v / BIT60) % 2 == 1 then Err(ReservedBitSet)
    else if !IsLeaf(v) then Err(PageFault)
    else if !Aligned(v, i) then Panic
    else Ok(AbsNat(Assembled(v, va, i, levels)))
  }

  /** The assertion loop on a leaf. */
  method CheckAligned(v: nat, i: nat) returns (fine: bool)
    requires i <= MAX_LEVELS
    ensures fine <==> Aligned(v, i)
  {
    for j := 0 to i
      invariant forall k :: 0 <= k < j ==> Vpn(Address(v), k) == 0
    {
      if Vpn(Address(v), j) != 0 {
        return false;
      }
    }
    return true;
  }

  function AbsNat(x: int): nat { if x >= 0 then x else 0 }

  function QueryTree(l: nat, levels: nat, t: Tree, va: nat): QueryResult
    requires l <= levels <= MAX_LEVELS && Shaped(l, t) && (t.Leaf? ==> l < levels)
  {
    match t
    case Leaf(v) => LeafAnswer(v, va, l, levels)
    case Table(kids) => QueryTree(l - 1, levels, kids[Vpn(va, l - 1)], va)
  }

  // ---- alignment ----

  /** Below bit 54 the assertion loop tests that the physical page is aligned to level `i`. */
  lemma {:induction false} AlignedIff(v: nat, i: nat)
    requires i <= MAX_LEVELS && v < PTE_LIMIT
    ensures Aligned(v, i) <==> Phys(v) % Size(i) == 0
    ensures Aligned(v, i) ==> (v * 4) % Size(i) == (v * 4) % PAGE
  {
    AddressParts(v);
    if i > 0 {
      AlignedIff(v, i - 1);
      AlignedStep(v, i - 1);
    }
  }

  lemma AddressParts(v: nat)
    requires v < PTE_LIMIT
    ensures Phys(v) % PAGE == 0 && v * 4 == Phys(v) + (v * 4) % PAGE
    ensures Address(v) - Phys(v) == Address(v) % PAGE && v * 4 < WORD
  {
    var q, m := v / 1024, v % 1024;
    DivUnique(v * 4, PAGE, q, m * 4);
    DivUnique(v, 256, q * 4 + m / 256, m % 256);
    DivUnique(v / 256 * 1024, PAGE, q, m / 256 * 1024);
  }

  /** A small part below the page size does not disturb the digits above it. */
  lemma SmallPart(x: nat, y: nat, l: nat)
    requires l < MAX_LEVELS && x % PAGE == 0 && y < PAGE
    ensures Vpn(x + y, l) == Vpn(x, l) && (x + y) % Size(l) == x % Size(l) + y
  {
    var s := Size(l);
    var q, m := x / s, x % s;
    assert x == q * s + m;
    assert s == PAGE * (s / PAGE);
    ModMod(x, PAGE, s / PAGE);
    RoundUp(m, s, PAGE);
    DivUnique(x + y, s, q, m + y);
  }

  lemma AlignedStep(v: nat, l: nat)
    requires l < MAX_LEVELS && v < PTE_LIMIT
    requires Aligned(v, l) <==> Phys(v) % Size(l) == 0
    requires Aligned(v, l) ==> (v * 4) % Size(l) == (v * 4) % PAGE
    ensures Aligned(v, l + 1) <==> Phys(v) % Size(l + 1) == 0
    ensures Aligned(v, l + 1) ==> (v * 4) % Size(l + 1) == (v * 4) % PAGE
  {
    AddressParts(v);
    var p := Phys(v);
    SmallPart(p, Address(v) % PAGE, l);
    SmallPart(p, (v * 4) % PAGE, l);
    assert Aligned(v, l + 1) <==> Aligned(v, l) && Vpn(p, l) == 0;
    VpnIsDigit(p, l);
    VpnIsDigit(v * 4, l);
    DigitZero(Vpn(p, l), Size(l), p % Size(l));
  }

  lemma DigitZero(d: nat, s: nat, m: nat)
    requires s > 0
    ensures d * s + m == 0 <==> d == 0 && m == 0
  {
    MulSign(d, s);
  }

  // ---- the answer on well-formed trees ----

  /** Without reserved bits, the error branches of `query` reduce to an invalid entry. */
  lemma GoodLeafAnswer(v: nat, va: nat, i: nat, levels: nat)
    requires i < levels <= MAX_LEVELS && GoodLeaf(i, v)
    ensures LeafAnswer(v, va, i, levels)
              == if IsValid(v) then Ok((Phys(v) + va % Size(i)) % Size(levels)) else Err(Invalid)
  {
    if IsValid(v) {
      assert v / BIT60 == 0;
      AlignedIff(v, i);
      AddressParts(v);
      AssembledIs(v, va, i, levels);
    }
  }

  lemma AssembledIs(v: nat, va: nat, i: nat, levels: nat)
    requires i < levels && 0 < levels <= MAX_LEVELS && v < PTE_LIMIT && Phys(v) % Size(i) == 0
    requires (v * 4) % Size(i) == (v * 4) % PAGE
    ensures Assembled(v, va, i, levels) == (Phys(v) + va % Size(i)) % Size(levels)
  {
    hide *;
    PageSizes();
    AddressParts(v);
    AssembledParts(v, va, i, levels);
    Nested(i, levels);
    Nested(0, levels);
    BelowPage(v * 4);
    ReplaceLow(Phys(v), (v * 4) % PAGE, va % Size(i), Size(i), Size(levels));
  }

  lemma AssembledParts(v: nat, va: nat, i: nat, levels: nat)
    requires i < levels <= MAX_LEVELS && v * 4 < WORD
    ensures Assembled(v, va, i, levels) == va % Size(i) + (v * 4) % Size(levels) - (v * 4) % Size(i)
    ensures va % Size(i) < Size(i)
  {
    DivUnique(v * 4, WORD, 0, v * 4);
    hide Size, WORD;
  }

  lemma BelowPage(x: nat)
    ensures x % PAGE < PAGE
  {
  }

  /** Exchanging the low part of a number whose high part is aligned. */
  lemma ReplaceLow(p: nat, low: nat, o: nat, s: nat, m: nat)
    requires s > 0 && m > 0 && m % s == 0 && p % s == 0 && o < s
    requires m % PAGE == 0 && p % PAGE == 0 && low < PAGE
    ensures o + (p + low) % m - low == (p + o) % m
  {
    BelowModulus(p, o, s, m);
    BelowModulus(p, low, PAGE, m);
  }

  /** Inside one aligned block, a remainder by a multiple of the block only sees the block. */
  lemma BelowModulus(p: nat, low: nat, s: nat, m: nat)
    requires s > 0 && m % s == 0 && m > 0 && p % s == 0 && low < s
    ensures (p + low) % m == p % m + low
  {
    Floor(p, m);
    MultipleOfMultiple(p - p % m, m, s);
    DiffMultiple(p, p - p % m, s);
    RoundUp(p % m, m, s);
    DivUnique(p + low, m, p / m, p % m + low);
  }

  /** The leaf word over an address, and its level. */
  function LeafOver(l: nat, t: Tree, va: nat): (r: (nat, nat))
    requires l <= MAX_LEVELS && Shaped(l, t)
    ensures r.1 <= l && (t.Table? ==> r.1 < l)
  {
    match t
    case Leaf(v) => (v, l)
    case Table(kids) => LeafOver(l - 1, kids[Vpn(va, l - 1)], va)
  }

  /** `query` answers by the leaf word over the address alone. */
  lemma {:induction false} QueryAtLeaf(l: nat, levels: nat, t: Tree, va: nat)
    requires l <= levels <= MAX_LEVELS && Shaped(l, t) && (t.Leaf? ==> l < levels)
    ensures QueryTree(l, levels, t, va) == LeafAnswer(LeafOver(l, t, va).0, va, LeafOver(l, t, va).1, levels)
  {
    hide LeafAnswer, Vpn;
    if t.Table? {
      QueryAtLeaf(l - 1, levels, t.kids[Vpn(va, l - 1)], va);
    }
  }

  /** In a well-formed tree the meaning of an address is that of the leaf word over it. */
  lemma {:induction false} LookAtLeaf(l: nat, t: Tree, va: nat)
    requires l <= MAX_LEVELS && WF(l, t) && Shaped(l, t)
    ensures var (v, k) := LeafOver(l, t, va);
            GoodLeaf(k, v) && Look(l, t, va % Size(l)) == LeafMeaning(v, va % Size(k))
  {
    if t.Table? {
      VpnIsDigit(va, l - 1);
      hide Size, Vpn, LeafMeaning, GoodLeaf;
      LookAtLeaf(l - 1, t.kids[Vpn(va, l - 1)], va);
    }
  }

  /** `query` computes the meaning of a well-formed tree; the result keeps the low
      12 + 9 * LEVELS bits of the physical address, and only those bits of the virtual
      address matter. */
  lemma {:induction false} QueryMeaning(l: nat, levels: nat, t: Tree, va: nat)
    requires l <= levels <= MAX_LEVELS && WF(l, t) && Shaped(l, t) && (t.Leaf? ==> l < levels)
    requires levels > 0
    ensures QueryTree(l, levels, t, va) == match Look(l, t, va % Size(l))
                                           case None => Err(Invalid)
                                           case Some(x) => Ok(x.pa % Size(levels))
  {
    hide *;
    QueryAtLeaf(l, levels, t, va);
    LookAtLeaf(l, t, va);
    var leaf := LeafOver(l, t, va);
    GoodLeafAnswer(leaf.0, va, leaf.1, levels);
    LeafMeaningIs(leaf.0, va % Size(leaf.1));
  }

  lemma LeafMeaningIs(v: nat, off: nat)
    ensures LeafMeaning(v, off) == if IsValid(v) then Some(Xlat(Phys(v) + off, v % 256)) else None
  {
  }

  /** A misaligned superpage makes `query` panic. */
  lemma {:induction false} TripPanics(l: nat, levels: nat, t: Tree, va: nat)
    requires 0 < levels && l <= levels <= MAX_LEVELS && Shaped(l, t) && (t.Leaf? ==> l < levels)
    requires Trips(l, t, va % Size(l))
    ensures QueryTree(l, levels, t, va) == Panic
  {
    match t
    case Leaf(v) =>
      AlignedIff(v, l);
      assert v / BIT60 == 0;
    case Table(kids) =>
      VpnIsDigit(va, l - 1);
      hide Size, Vpn;
      TripPanics(l - 1, levels, kids[Vpn(va, l - 1)], va);
  }

  // ---- split ----

  /** An aligned leaf or an invalid entry. */
  predicate CanSplit(l: nat, v: nat)
    requires l <= MAX_LEVELS
  {
    GoodLeaf(l, v) || !IsValid(v)
  }

  /** A split slot answers every query as the leaf did. */
  lemma SplitQuery(v: nat, l: nat, levels: nat, va: nat)
    requires 0 < l < levels <= MAX_LEVELS && CanSplit(l, v)
    ensures QueryTree(l, levels, SplitLeaf(v, l), va) == LeafAnswer(v, va, l, levels)
  {
    hide SplitLeaf, LeafAnswer, GoodLeaf, Size, QueryTree;
    if GoodLeaf(l, v) {
      SplitGoodQuery(v, l, levels, va);
    } else {
      SplitInvalidQuery(v, l, levels, va);
    }
  }

  lemma SplitGoodQuery(v: nat, l: nat, levels: nat, va: nat)
    requires 0 < l < levels <= MAX_LEVELS && GoodLeaf(l, v)
    ensures QueryTree(l, levels, SplitLeaf(v, l), va) == LeafAnswer(v, va, l, levels)
  {
    hide Size, Vpn, LeafAnswer, GoodLeaf, SplitLeaf, Look, QueryTree, WF, Shaped;
    SplitWF(v, l);
    SplitMeaning(v, l, va % Size(l));
    QueryMeaning(l, levels, SplitLeaf(v, l), va);
    GoodLeafAnswer(v, va, l, levels);
  }

  lemma SplitInvalidQuery(v: nat, l: nat, levels: nat, va: nat)
    requires 0 < l < levels <= MAX_LEVELS && !IsValid(v)
    ensures QueryTree(l, levels, SplitLeaf(v, l), va) == Err(Invalid) == LeafAnswer(v, va, l, levels)
  {
    var d := Vpn(va, l - 1);
    SplitEntry(v, l, d);
    hide Size, Vpn, SplitPte, Phys, Assembled, Aligned;
    assert SplitLeaf(v, l).kids[d] == Leaf(SplitPte(v, l, d));
  }

  /** The tree with the leaf over `at` split. */
  function SplitOver(l: nat, t: Tree, at: nat): (u: Tree)
    requires l <= MAX_LEVELS && Shaped(l, t)
    ensures Shaped(l, u) && (t.Table? ==> u.Table?) && (l == 0 ==> u == t)
  {
    match t
    case Leaf(v) => if l == 0 then t else SplitLeaf(v, l)
    case Table(kids) =>
      var d := Vpn(at, l - 1);
      Table(kids[d := SplitOver(l - 1, kids[d], at)])
  }

  /** Splitting any aligned or invalid leaf of any tree leaves the answer of every query
      unchanged. */
  lemma {:induction false} SplitAnywhere(l: nat, levels: nat, t: Tree, at: nat, va: nat)
    requires l <= levels <= MAX_LEVELS && Shaped(l, t) && (t.Leaf? ==> l < levels)
    requires CanSplit(LeafOver(l, t, at).1, LeafOver(l, t, at).0)
    ensures QueryTree(l, levels, SplitOver(l, t, at), va) == QueryTree(l, levels, t, va)
  {
    hide LeafAnswer, Vpn, CanSplit, SplitLeaf;
    match t
    case Leaf(v) =>
      if l > 0 {
        SplitQuery(v, l, levels, va);
      }
    case Table(kids) =>
      var d := Vpn(at, l - 1);
      SplitAnywhere(l - 1, levels, kids[d], at, va);
  }
}
