/** What `map` makes of a table of leaves, address by address, and for which payloads the
    bootloader's kernel window is right. */
module PageBoot {
  import opened Options
  import opened Arith
  import opened PageArith
  import opened PageTree
  import opened PageMap
  import opened PageMeaning
  import opened PageExact
  import opened PageSuper
  import opened PageLimits
  import opened PageQuery
  import opened PageRuns

  // ---- one call on a table of leaves ----

  /** An address keeps its translation, or lies in a leaf written at a level. */
  datatype Fate = Kept | WrittenAt(level: nat)

  /** The windows and the misalignment tests decide, on the way down. */
  function FateOf(l: nat, r: Request, x: nat): (f: Fate)
    requires l < MAX_LEVELS && 1 <= r.va + r.len
    ensures f.WrittenAt? ==> f.level <= l
  {
    var d := Vpn(x, l);
    if !(Start(l, r) <= d <= End(l, r)) then Kept
    else if l > 0 && NeedsSplit(l, r, d) then FateOf(l - 1, r, x)
    else WrittenAt(l)
  }

  /** The answer of `query` for an address under a leaf written at level `k`. */
  function WrittenAnswer(k: nat, levels: nat, r: Request, x: nat): QueryResult
    requires k < MAX_LEVELS && levels <= MAX_LEVELS
  {
    if (r.pa - r.va) % Size(k) == 0 then Ok(((x + r.pa - r.va) % PHYS) % Size(levels)) else Panic
  }

  ghost predicate Leaves(l: nat, kids: seq<Tree>)
    requires l < MAX_LEVELS
  {
    |kids| == ENTRY_COUNT && forall i :: 0 <= i < ENTRY_COUNT ==> kids[i].Leaf? && CanSplit(l, kids[i].pte)
  }

  lemma LeavesShaped(l: nat, kids: seq<Tree>)
    requires l < MAX_LEVELS && Leaves(l, kids)
    ensures Shaped(l + 1, Table(kids))
  {
    hide CanSplit;
  }

  lemma LeavesAt(l: nat, kids: seq<Tree>, d: nat)
    requires l < MAX_LEVELS && Leaves(l, kids) && d < ENTRY_COUNT
    ensures d < |kids| && kids[d].Leaf? && CanSplit(l, kids[d].pte)
  {
    hide CanSplit;
  }

  lemma SplitLeaves(v: nat, l: nat)
    requires 0 < l < MAX_LEVELS && CanSplit(l, v)
    ensures Leaves(l - 1, SplitLeaf(v, l).kids)
  {
    var kids := SplitLeaf(v, l).kids;
    forall i | 0 <= i < ENTRY_COUNT
      ensures kids[i].Leaf? && CanSplit(l - 1, kids[i].pte)
    {
      SplitEntry(v, l, i);
      if GoodLeaf(l, v) {
        SplitGood(v, l, i);
      }
      hide GoodLeaf, SplitPte, IsValid;
    }
  }

  /** The leaf written for the slot at `a`. */
  lemma WrittenLeafAnswer(l: nat, levels: nat, a: nat, r: Request, x: nat)
    requires l < levels <= MAX_LEVELS && Legal(MAX_LEVELS, r) && GoodFlags(r.flags)
    requires a < WORD && a % Size(l) == 0 && a <= x < a + Size(l)
    ensures LeafAnswer(Pte(a, r), x, l, levels) == WrittenAnswer(l, levels, r, x)
  {
    hide *;
    DivUnique(x, Size(l), a / Size(l), x - a) by {
      Floor(a, Size(l));
    }
    if (r.pa - r.va) % Size(l) == 0 {
      PteGood(l, a, r);
      GoodLeafAnswer(Pte(a, r), x, l, levels);
      WrittenParts(l, a, r, x);
      WrittenGood(l, levels, r, x);
    } else {
      BrokenPte(l, a, r);
      BrokenAnswer(Pte(a, r), x, l, levels);
      WrittenBad(l, levels, r, x);
    }
  }

  lemma WrittenParts(l: nat, a: nat, r: Request, x: nat)
    requires l < MAX_LEVELS && Legal(MAX_LEVELS, r) && GoodFlags(r.flags) && (r.pa - r.va) % Size(l) == 0
    requires a < WORD && a % Size(l) == 0 && a <= x < a + Size(l)
    ensures IsValid(Pte(a, r)) && Phys(Pte(a, r)) + (x - a) == (x + r.pa - r.va) % PHYS
  {
    PageAligned(a, l);
    PteMeaning(a, r);
    hide Size, Pte, Phys, IsValid, PHYS;
    ModAdd(r.pa - r.va, a, Size(l));
    AddInside(a + r.pa - r.va, l, x - a);
  }

  lemma WrittenGood(l: nat, levels: nat, r: Request, x: nat)
    requires l < MAX_LEVELS && levels <= MAX_LEVELS && (r.pa - r.va) % Size(l) == 0
    ensures WrittenAnswer(l, levels, r, x) == Ok(((x + r.pa - r.va) % PHYS) % Size(levels))
  {
  }

  lemma WrittenBad(l: nat, levels: nat, r: Request, x: nat)
    requires l < MAX_LEVELS && levels <= MAX_LEVELS && (r.pa - r.va) % Size(l) != 0
    ensures WrittenAnswer(l, levels, r, x) == Panic
  {
  }

  lemma BrokenAnswer(v: nat, va: nat, i: nat, levels: nat)
    requires i < levels <= MAX_LEVELS && v < PTE_LIMIT && IsValid(v) && PermOk(v) && Phys(v) % Size(i) != 0
    ensures LeafAnswer(v, va, i, levels) == Panic
  {
    AlignedIff(v, i);
    assert v / BIT60 == 0;
    hide Aligned, Phys, Size, Assembled;
  }

  /** One call on a table of leaves: what `query` answers afterwards, for every address. */
  lemma {:induction false} LeavesAnswer(l: nat, levels: nat, kids: seq<Tree>, cur: nat, r: Request, x: nat)
    requires l < levels <= MAX_LEVELS && Legal(MAX_LEVELS, r) && GoodFlags(r.flags) && 1 <= r.va + r.len
    requires cur % Size(l + 1) == 0 && cur + Size(l + 1) <= Size(MAX_LEVELS) && cur <= x < cur + Size(l + 1)
    requires Leaves(l, kids)
    ensures Shaped(l + 1, Table(kids)) && Shaped(l + 1, Table(MapTable(l, kids, cur, r)))
    ensures QueryTree(l + 1, levels, Table(MapTable(l, kids, cur, r)), x)
              == match FateOf(l, r, x)
                 case Kept => QueryTree(l + 1, levels, Table(kids), x)
                 case WrittenAt(k) => WrittenAnswer(k, levels, r, x)
    decreases l
  {
    hide *;
    LeavesShaped(l, kids);
    MapShaped(l, kids, cur, r);
    var d := Vpn(x, l);
    LeavesAt(l, kids, d);
    LeavesStep(l, levels, kids, cur, r, x);
    WidestSize();
    SlotBase(l, cur, d);
    WindowInside(l, cur, x);
    SameSlot(l, cur, x, d);
    if Start(l, r) <= d <= End(l, r) {
      if l > 0 && NeedsSplit(l, r, d) {
        SplitLeaves(kids[d].pte, l);
        LeavesAnswer(l - 1, levels, SplitLeaf(kids[d].pte, l).kids, cur + d * Size(l), r, x);
        SplitQuery(kids[d].pte, l, levels, x);
      } else {
        WrittenLeafAnswer(l, levels, cur + d * Size(l), r, x);
      }
    }
  }

  /** One level of the lookup and of the fate. */
  lemma LeavesStep(l: nat, levels: nat, kids: seq<Tree>, cur: nat, r: Request, x: nat)
    requires l < levels <= MAX_LEVELS && 1 <= r.va + r.len
    requires Shaped(l + 1, Table(kids)) && Shaped(l + 1, Table(MapTable(l, kids, cur, r)))
    requires kids[Vpn(x, l)].Leaf?
    ensures var d := Vpn(x, l);
            var v, a := kids[d].pte, cur + d * Size(l);
            var answer := QueryTree(l + 1, levels, Table(MapTable(l, kids, cur, r)), x);
            && QueryTree(l + 1, levels, Table(kids), x) == LeafAnswer(v, x, l, levels)
            && (!(Start(l, r) <= d <= End(l, r)) ==> FateOf(l, r, x) == Kept && answer == LeafAnswer(v, x, l, levels))
            && (Start(l, r) <= d <= End(l, r) && l > 0 && NeedsSplit(l, r, d) ==>
                  && FateOf(l, r, x) == FateOf(l - 1, r, x)
                  && SplitLeaf(v, l) == Table(SplitLeaf(v, l).kids)
                  && Shaped(l, Table(MapTable(l - 1, SplitLeaf(v, l).kids, a, r)))
                  && answer == QueryTree(l, levels, Table(MapTable(l - 1, SplitLeaf(v, l).kids, a, r)), x))
            && (Start(l, r) <= d <= End(l, r) && !(l > 0 && NeedsSplit(l, r, d)) ==>
                  FateOf(l, r, x) == WrittenAt(l) && answer == LeafAnswer(Pte(a, r), x, l, levels))
  {
    hide Size, Vpn, Start, End, NeedsSplit, Pte, LeafAnswer, SplitLeaf;
    var d := Vpn(x, l);
    if l > 0 {
      MapShaped(l - 1, SplitLeaf(kids[d].pte, l).kids, cur + d * Size(l), r);
    }
  }

  // ---- the misalignment tests ----

  /** A slot is split exactly at an end of the window at which either address is misaligned. */
  lemma SplitsIff(l: nat, r: Request, i: nat)
    requires l < MAX_LEVELS && Legal(MAX_LEVELS, r) && 1 <= r.va + r.len
    ensures NeedsSplit(l, r, i) <==>
              || (i == Start(l, r) && (r.va % Size(l) != 0 || r.pa % Size(l) != 0))
              || (i == End(l, r) && ((r.va + r.len) % Size(l) != 0 || (r.pa + r.len) % Size(l) != 0))
  {
    ShiftIsDifference(r);
    EndShift(l, r);
    var end := r.va + r.len;
    DivUnique(end, WORD, 0, end);
    hide Size, Start, End, Offset, WORD;
  }

  lemma EndShift(l: nat, r: Request)
    requires l < MAX_LEVELS
    ensures ((r.va + r.len + (r.pa - r.va) % WORD) % WORD) % Size(l) == (r.pa + r.len) % Size(l)
  {
    var d := r.pa - r.va;
    var q := d / WORD;
    assert d % WORD == d - q * WORD;
    ModOfMultiple(-q, WORD);
    ModAdd(r.pa + r.len, -q * WORD, WORD);
    assert r.va + r.len + d % WORD == r.pa + r.len + -q * WORD;
    hide WORD, Size;
    PageModulus(r.pa + r.len, l);
  }

  // ---- the kernel window ----

  const GIGA: nat := 0x4000_0000

  /** The root after the first two calls holds only leaves. */
  lemma SuperRootLeaves(t: Tree, r: Request)
    requires t.Table? && Shaped(3, t) && (forall i :: 0 <= i < ENTRY_COUNT ==> t.kids[i].Leaf?)
    requires Legal(3, r) && Legal(MAX_LEVELS, r) && Super(2, r) && 1 <= r.va + r.len
    ensures forall i :: 0 <= i < ENTRY_COUNT ==> MapRoot(3, t, r).kids[i].Leaf?
  {
    hide Size, Vpn, Start, End, NeedsSplit, Pte, Super, Legal;
    forall i | 0 <= i < ENTRY_COUNT
      ensures MapRoot(3, t, r).kids[i].Leaf?
    {
      SuperNoSplit(2, r, i);
    }
  }

  function Halves(): (t: Tree)
    ensures t.Table? && Shaped(3, t)
  {
    ZeroWF(3);
    Run(3, ZeroTable(), [LowHalf(), HighHalf()])
  }

  lemma HalvesLeaves()
    ensures Leaves(2, Halves().kids) && WF(3, Halves())
  {
    var z, lo, hi := ZeroTable(), LowHalf(), HighHalf();
    ZeroWF(3);
    BootLow();
    BootHalves(0);
    assert Legal(MAX_LEVELS, lo) && Legal(MAX_LEVELS, hi);
    hide Size, Super, Legal, WF;
    SuperRootLeaves(z, lo);
    var t1 := MapRoot(3, z, lo);
    MapShaped(2, z.kids, 0, lo);
    SuperRootLeaves(t1, hi);
    assert Halves() == MapRoot(3, t1, hi) by {
      assert [lo, hi][..1] == [lo] && [lo][..0] == [];
      assert Run(3, z, [lo]) == t1;
    }
    LeavesOfWF(Halves());
  }

  lemma LeavesOfWF(t: Tree)
    requires t.Table? && WF(3, t) && |t.kids| == ENTRY_COUNT && forall i :: 0 <= i < ENTRY_COUNT ==> t.kids[i].Leaf?
    ensures Leaves(2, t.kids)
  {
    hide GoodLeaf;
    forall i | 0 <= i < ENTRY_COUNT
      ensures CanSplit(2, t.kids[i].pte)
    {
      assert WF(2, t.kids[i]);
    }
  }

  /** The boot page table, for every payload that fits below the top: an address outside the
      written slots keeps its physical half, one in a written slot is sent to the payload, and
      one in a misaligned superpage stops the lookup. */
  lemma BootAnswer(payload: nat, n: nat, v: nat)
    requires payload % PAGE == 0 && payload < WORD && Padded(n) <= 2 * GIGA && v < Size(3)
    ensures 1 <= Kernel(payload, n).va + Kernel(payload, n).len
    ensures QueryTree(3, 3, BootTree(payload, n), v)
              == match FateOf(2, Kernel(payload, n), v)
                 case Kept => Ok(v % HALF)
                 case WrittenAt(k) => WrittenAnswer(k, 3, Kernel(payload, n), v)
  {
    var k := Kernel(payload, n);
    HalvesLeaves();
    KernelLegal(payload, n);
    ZeroWF(3);
    BootTreeIs(payload, n);
    RootIs(k);
    HalvesAnswer(v);
    hide *;
    LeavesAnswer(2, 3, Halves().kids, 0, k, v);
  }

  /** Below the kernel window nothing depends on the payload: the low half is mapped to itself and
      the high half to physical memory from 0. */
  lemma BootOutside(payload: nat, n: nat, v: nat)
    requires payload % PAGE == 0 && payload < WORD && Padded(n) <= 2 * GIGA && v < KERNEL_BASE
    ensures QueryTree(3, 3, BootTree(payload, n), v) == Ok(v % HALF)
  {
    KernelWindow(payload, n);
    BelowWindow(v);
    BootAnswer(payload, n, v);
    hide BootTree, QueryTree, Padded, NeedsSplit, Start, End, Vpn;
  }

  lemma BelowWindow(v: nat)
    requires v < KERNEL_BASE
    ensures v < Size(3) && Vpn(v, 2) < 510
  {
    assert v / GIGA < 510;
  }

  lemma KernelLegal(payload: nat, n: nat)
    requires payload % PAGE == 0 && payload < WORD && Padded(n) <= 2 * GIGA
    ensures var k := Kernel(payload, n);
            && k.va == KERNEL_BASE && k.len == Padded(n) && k.pa == payload
            && Legal(MAX_LEVELS, k) && GoodFlags(k.flags) && 1 <= k.va + k.len
    ensures 2 < 3 <= MAX_LEVELS && 0 % Size(3) == 0 && Size(3) <= Size(MAX_LEVELS)
  {
  }

  lemma RootIs(r: Request)
    requires 1 <= r.va + r.len
    ensures ZeroTable().Table? && Shaped(3, ZeroTable()) ==>
            MapRoot(3, Halves(), r) == Table(MapTable(2, Halves().kids, 0, r))
    ensures Halves() == Table(Halves().kids)
    ensures Shaped(3, ZeroTable()) ==> Halves() == Run(3, ZeroTable(), [LowHalf(), HighHalf()])
  {
    hide MapTable, Run, ZeroTable;
  }

  lemma HalvesAnswer(v: nat)
    requires v < Size(3)
    ensures QueryTree(3, 3, Halves(), v) == Ok(v % HALF)
  {
    hide *;
    HalvesFit(v);
    BootHalves(v);
    HalvesRun();
    QueryMeaning(3, 3, Halves(), v);
  }

  lemma HalvesRun()
    ensures Shaped(3, ZeroTable()) ==> Halves() == Run(3, ZeroTable(), [LowHalf(), HighHalf()])
  {
    hide Run, ZeroTable;
  }

  lemma HalvesFit(v: nat)
    requires v < Size(3)
    ensures 0 < 3 <= MAX_LEVELS && v % Size(3) == v && v % HALF % Size(3) == v % HALF
  {
  }

  // ---- the payloads for which the window is right ----

  /** Both addresses are checked at the ends of a window: slot `d` of a window that starts at 0
      and ends at `e`, in steps of `s`. */
  predicate Splits(pl: nat, p: nat, d: nat, e: nat, s: nat)
    requires s > 0
  {
    (d == 0 && pl % s != 0) || (d == e && (p % s != 0 || (pl + p) % s != 0))
  }

  /** The byte at offset `y` of the window is in a leaf written for it, and aligned. */
  predicate Right(pl: nat, p: nat, y: nat)
    requires p > 0
  {
    if !Splits(pl, p, y / GIGA, (p - 1) / GIGA, GIGA) then pl % GIGA == 0
    else
      && y % GIGA / MEGAPAGE <= (p - 1) % GIGA / MEGAPAGE
      && if !Splits(pl, p, y % GIGA / MEGAPAGE, (p - 1) % GIGA / MEGAPAGE, MEGAPAGE) then pl % MEGAPAGE == 0
         else y % MEGAPAGE / PAGE <= p % MEGAPAGE / PAGE
  }

  /** Page numbers of the window, which starts at a multiple of a gigapage. */
  lemma KernelVpn(y: nat)
    requires y < 2 * GIGA
    ensures Vpn(KERNEL_BASE + y, 2) == 510 + y / GIGA
    ensures Vpn(KERNEL_BASE + y, 1) == y % GIGA / MEGAPAGE
    ensures Vpn(KERNEL_BASE + y, 0) == y % MEGAPAGE / PAGE
  {
    var x := KERNEL_BASE + y;
    DivUnique(x, GIGA, 510 + y / GIGA, y % GIGA);
    DivUnique(x, MEGAPAGE, 510 * 512 + y / MEGAPAGE, y % MEGAPAGE);
    DigitOf(x, MEGAPAGE);
    DigitOf(x, PAGE);
    assert x % GIGA == y % GIGA;
  }

  lemma KernelWindow(payload: nat, n: nat)
    requires payload % PAGE == 0 && payload < WORD && Padded(n) <= 2 * GIGA
    ensures var r, p := Kernel(payload, n), Padded(n);
            && 1 <= r.va + r.len
            && Start(2, r) == 510 && End(2, r) == 510 + (p - 1) / GIGA
            && Start(1, r) == 0 && End(1, r) == (p - 1) % GIGA / MEGAPAGE
            && Start(0, r) == 0 && End(0, r) == p % MEGAPAGE / PAGE
  {
    var p := Padded(n);
    KernelVpn(0);
    KernelVpn(p - 1);
    LastVpn(p);
    hide Vpn, Padded;
  }

  lemma LastVpn(p: nat)
    requires p <= 2 * GIGA
    ensures Vpn(KERNEL_BASE + p, 0) == p % MEGAPAGE / PAGE
  {
    var x := KERNEL_BASE + p;
    DivUnique(x, MEGAPAGE, 510 * 512 + p / MEGAPAGE, p % MEGAPAGE);
    DigitOf(x, PAGE);
  }

  lemma KernelSplits(payload: nat, n: nat, l: nat, d: nat)
    requires payload % PAGE == 0 && payload < WORD && Padded(n) <= 2 * GIGA && 1 <= l <= 2
    requires 1 <= Kernel(payload, n).va + Kernel(payload, n).len
    ensures var r, p := Kernel(payload, n), Padded(n);
            && (l == 2 ==> (NeedsSplit(2, r, 510 + d) <==> Splits(payload, p, d, (p - 1) / GIGA, GIGA)))
            && (l == 1 ==> (NeedsSplit(1, r, d) <==> Splits(payload, p, d, (p - 1) % GIGA / MEGAPAGE, MEGAPAGE)))
  {
    var r := Kernel(payload, n);
    KernelLegal(payload, n);
    KernelWindow(payload, n);
    SplitsIff(l, r, if l == 2 then 510 + d else d);
    assert KERNEL_BASE % Size(l) == 0 && Size(2) == GIGA && Size(1) == MEGAPAGE;
    ModAdd(Padded(n), KERNEL_BASE, Size(l));
    hide NeedsSplit, Start, End, Padded;
  }

  /** The fate of an address of the window, in numbers. */
  lemma KernelFate(payload: nat, n: nat, y: nat)
    requires payload % PAGE == 0 && payload < WORD && Padded(n) <= 2 * GIGA && y < Padded(n)
    requires 1 <= Kernel(payload, n).va + Kernel(payload, n).len
    ensures var f := FateOf(2, Kernel(payload, n), KERNEL_BASE + y);
            Right(payload, Padded(n), y) <==> f.WrittenAt? && payload % Size(f.level) == 0
  {
    var r, p := Kernel(payload, n), Padded(n);
    KernelVpn(y);
    KernelWindow(payload, n);
    KernelSplits(payload, n, 2, y / GIGA);
    KernelSplits(payload, n, 1, y % GIGA / MEGAPAGE);
    assert Size(2) == GIGA && Size(1) == MEGAPAGE && Size(0) == PAGE;
    FateSteps(r, KERNEL_BASE + y);
    assert y / GIGA <= (p - 1) / GIGA;
    hide Vpn, Start, End, NeedsSplit, Splits, Kernel, Padded, FateOf, Size, GIGA, MEGAPAGE, PAGE, KERNEL_BASE;
  }

  lemma FateSteps(r: Request, x: nat)
    requires 1 <= r.va + r.len
    ensures FateOf(2, r, x) == if !(Start(2, r) <= Vpn(x, 2) <= End(2, r)) then Kept
                               else if NeedsSplit(2, r, Vpn(x, 2)) then FateOf(1, r, x) else WrittenAt(2)
    ensures FateOf(1, r, x) == if !(Start(1, r) <= Vpn(x, 1) <= End(1, r)) then Kept
                               else if NeedsSplit(1, r, Vpn(x, 1)) then FateOf(0, r, x) else WrittenAt(1)
    ensures FateOf(0, r, x) == if !(Start(0, r) <= Vpn(x, 0) <= End(0, r)) then Kept else WrittenAt(0)
  {
    hide Start, End, NeedsSplit, Vpn;
  }

  /** Payloads, by address and padded length, that end up right: under one 2 MiB slot; or on a 2 MiB
      boundary, and then under one gigapage, or on a gigapage boundary, or filling both
      gigapages but for at most one page; or one page short of two 2 MiB slots. */
  predicate WindowFits(pl: nat, p: nat)
  {
    || p < MEGAPAGE
    || (pl % MEGAPAGE == 0 && (p <= GIGA || pl % GIGA == 0 || p == 2 * GIGA || p == 2 * GIGA - PAGE))
    || p == 2 * MEGAPAGE - PAGE
  }

  lemma FitsRight(pl: nat, p: nat, y: nat)
    requires pl % PAGE == 0 && p % PAGE == 0 && y < p <= 2 * GIGA && WindowFits(pl, p)
    ensures Right(pl, p, y)
  {
    if p < MEGAPAGE {
      assert y % MEGAPAGE / PAGE <= p % MEGAPAGE / PAGE;
    } else if p == 2 * MEGAPAGE - PAGE {
      assert p % MEGAPAGE / PAGE == 511;
    } else {
      GigaMultiple(pl);
      if Splits(pl, p, y / GIGA, (p - 1) / GIGA, GIGA) {
        AlignedRight(pl, p, y);
      } else if y / GIGA == (p - 1) / GIGA {
        GigaEnd(pl, p);
      }
    }
  }

  lemma GigaMultiple(pl: nat)
    ensures pl % GIGA == 0 ==> pl % MEGAPAGE == 0
  {
  }

  /** An end that is aligned with its target makes the target aligned. */
  lemma GigaEnd(pl: nat, p: nat)
    requires p % GIGA == 0 && (pl + p) % GIGA == 0
    ensures pl % GIGA == 0
  {
  }

  lemma AlignedRight(pl: nat, p: nat, y: nat)
    requires pl % MEGAPAGE == 0 && p % PAGE == 0 && y < p <= 2 * GIGA
    requires p <= GIGA || pl % GIGA == 0 || p == 2 * GIGA || p == 2 * GIGA - PAGE
    requires Splits(pl, p, y / GIGA, (p - 1) / GIGA, GIGA)
    ensures Right(pl, p, y)
  {
    AlignedSum(pl, p);
    if y / GIGA == (p - 1) / GIGA {
      SameGiga(p, y);
      if y % GIGA / MEGAPAGE == (p - 1) % GIGA / MEGAPAGE && p % MEGAPAGE != 0 {
        SameMega(p, y);
      }
    } else {
      assert y / GIGA == 0 && (p == 2 * GIGA || p == 2 * GIGA - PAGE);
      MegaIndex(y);
    }
    hide GIGA, MEGAPAGE, PAGE;
  }

  lemma AlignedSum(pl: nat, p: nat)
    requires pl % MEGAPAGE == 0
    ensures (pl + p) % MEGAPAGE == p % MEGAPAGE
    ensures p == 2 * GIGA ==> (p - 1) % GIGA / MEGAPAGE == 511 && p % MEGAPAGE == 0
    ensures p == 2 * GIGA - PAGE ==> (p - 1) % GIGA / MEGAPAGE == 511 && p % MEGAPAGE / PAGE == 511
  {
    ModAdd(p, pl, MEGAPAGE);
  }

  lemma MegaIndex(y: nat)
    ensures y % GIGA / MEGAPAGE <= 511 && y % MEGAPAGE / PAGE <= 511
  {
  }

  lemma SameGiga(p: nat, y: nat)
    requires y < p && y / GIGA == (p - 1) / GIGA
    ensures y % GIGA / MEGAPAGE <= (p - 1) % GIGA / MEGAPAGE
  {
    assert y % GIGA <= (p - 1) % GIGA;
  }

  lemma SameMega(p: nat, y: nat)
    requires y < p && y / GIGA == (p - 1) / GIGA && p % MEGAPAGE != 0
    requires y % GIGA / MEGAPAGE == (p - 1) % GIGA / MEGAPAGE
    ensures y % MEGAPAGE / PAGE <= p % MEGAPAGE / PAGE
  {
    var g := y / GIGA;
    assert y / MEGAPAGE == 512 * g + y % GIGA / MEGAPAGE && (p - 1) / MEGAPAGE == 512 * g + (p - 1) % GIGA / MEGAPAGE;
    assert p / MEGAPAGE == (p - 1) / MEGAPAGE;
    assert y % MEGAPAGE < p % MEGAPAGE;
  }

  /** The offset at which any other payload goes wrong. */
  function WrongAt(pl: nat, p: nat): (y: nat)
  {
    if pl % MEGAPAGE == 0 then GIGA - PAGE
    else if p <= 2 * MEGAPAGE then MEGAPAGE - PAGE
    else if (p - 1) % GIGA / MEGAPAGE >= 2 then MEGAPAGE
    else 2 * MEGAPAGE
  }

  lemma UnfitWrong(pl: nat, p: nat)
    requires pl % PAGE == 0 && p % PAGE == 0 && 0 < p <= 2 * GIGA && !WindowFits(pl, p)
    ensures WrongAt(pl, p) < p && !Right(pl, p, WrongAt(pl, p)) && pl % GIGA != 0
  {
    GigaMultiple(pl);
  }

  // ---- the window as `query` sees it ----

  /** `query` sends the byte at offset `y` of the kernel window to the byte of the payload. */
  ghost predicate Shows(payload: nat, n: nat, y: nat)
  {
    KERNEL_BASE + y < Size(3) &&
        QueryTree(3, 3, BootTree(payload, n), KERNEL_BASE + y) == Ok(((payload + y) % PHYS) % Size(3))
  }

  lemma ShowsIff(payload: nat, n: nat, y: nat)
    requires payload % PAGE == 0 && payload < WORD && Padded(n) <= 2 * GIGA && y < Padded(n)
    ensures Right(payload, Padded(n), y) ==> Shows(payload, n, y)
    ensures payload % GIGA != 0 && !Right(payload, Padded(n), y) ==> !Shows(payload, n, y)
  {
    hide *;
    TopOfWindow();
    KernelLegal(payload, n);
    BootAnswer(payload, n, KERNEL_BASE + y);
    KernelFate(payload, n, y);
    AnswerIs(payload, n, y, FateOf(2, Kernel(payload, n), KERNEL_BASE + y));
    ShowsIs(payload, n, y);
  }

  lemma ShowsIs(payload: nat, n: nat, y: nat)
    requires KERNEL_BASE + y < Size(3)
    ensures Shows(payload, n, y)
        <==> QueryTree(3, 3, BootTree(payload, n), KERNEL_BASE + y) == Ok(((payload + y) % PHYS) % Size(3))
  {
    hide QueryTree, BootTree, Size;
  }

  lemma TopOfWindow()
    ensures KERNEL_BASE + 2 * GIGA == Size(3) && 2 < 3 <= MAX_LEVELS
  {
  }

  /** The three kinds of answers, compared with the byte of the payload. */
  lemma AnswerIs(payload: nat, n: nat, y: nat, f: Fate)
    requires y < 2 * GIGA && (f.WrittenAt? ==> f.level <= 2)
    ensures var r, x := Kernel(payload, n), KERNEL_BASE + y;
            var want := Ok(((payload + y) % PHYS) % Size(3));
            && KERNEL_BASE + y < Size(3)
            && (f.WrittenAt? && payload % Size(f.level) == 0 ==> WrittenAnswer(f.level, 3, r, x) == want)
            && (f.WrittenAt? && payload % Size(f.level) != 0 ==> WrittenAnswer(f.level, 3, r, x) == Panic)
            && (f.Kept? && payload % GIGA != 0 ==> Ok(x % HALF) != want)
  {
    if f.WrittenAt? {
      assert KERNEL_BASE % Size(f.level) == 0;
      var back: int := 0 - KERNEL_BASE;
      NegMultiple(KERNEL_BASE, Size(f.level));
      ModAdd(payload, back, Size(f.level));
    } else if payload % GIGA != 0 {
      KeptElsewhere(payload, y);
    }
  }

  lemma KeptElsewhere(payload: nat, y: nat)
    requires y < 2 * GIGA && payload % GIGA != 0
    ensures (KERNEL_BASE + y) % HALF != ((payload + y) % PHYS) % Size(3)
  {
    assert PHYS == Size(3) * (PHYS / Size(3)) && PHYS / Size(3) > 0;
    ModMod(payload + y, Size(3), PHYS / Size(3));
    var q := (payload + y) / Size(3);
    assert payload + y == q * Size(3) + (payload + y) % Size(3);
    assert Size(3) == 512 * GIGA && KERNEL_BASE - HALF == 254 * GIGA;
    if (KERNEL_BASE + y) % HALF == (payload + y) % Size(3) {
      assert (KERNEL_BASE + y) % HALF == KERNEL_BASE + y - HALF;
      assert payload == (512 * q + 254) * GIGA;
      ModOfMultiple(512 * q + 254, GIGA);
      assert false;
    }
  }

  /** The kernel window is right for exactly these payloads: for every payload address and every
      length that fits below the top of the address space. */
  lemma BootWindowIff(payload: nat, n: nat)
    requires payload % PAGE == 0 && payload < WORD && Padded(n) <= 2 * GIGA
    ensures (forall y :: 0 <= y < Padded(n) ==> Shows(payload, n, y)) <==> WindowFits(payload, Padded(n))
  {
    var p := Padded(n);
    hide *;
    if WindowFits(payload, p) {
      forall y | 0 <= y < p
        ensures Shows(payload, n, y)
      {
        FitsRight(payload, p, y);
        ShowsIff(payload, n, y);
      }
    } else {
      UnfitWrong(payload, p);
      ShowsIff(payload, n, WrongAt(payload, p));
    }
  }

  /** A payload that goes wrong: two megabytes, one page off a 2 MiB boundary. */
  lemma UnfitPayload()
    ensures Padded(0x1f_f000) == MEGAPAGE && !WindowFits(PAGE, MEGAPAGE)
  {
  }

  /** Every byte of the payload itself is where the kernel expects it: for every payload under 2 MiB,
      and for every other that meets the condition of `BootWindowIff`. */
  lemma PayloadShown(payload: nat, n: nat, y: nat)
    requires payload % PAGE == 0 && payload < WORD && Padded(n) <= 2 * GIGA && y < n
    requires Padded(n) < 0x20_0000 || WindowFits(payload, Padded(n))
    ensures KERNEL_BASE + y < Size(3) && KERNEL_BASE == 0x7f_8000_0000
    ensures QueryTree(3, 3, BootTree(payload, n), KERNEL_BASE + y) == Ok(((payload + y) % PHYS) % Size(3))
    ensures payload + n <= 0x80_0000_0000 ==>
              QueryTree(3, 3, BootTree(payload, n), KERNEL_BASE + y) == Ok(payload + y)
  {
    assert WindowFits(payload, Padded(n));
    FitsRight(payload, Padded(n), y);
    ShowsIff(payload, n, y);
    SmallAddress(payload + y);
    hide BootTree, QueryTree, WindowFits, Right, Padded;
  }

  lemma SmallAddress(x: nat)
    ensures x < 0x80_0000_0000 ==> (x % PHYS) % Size(3) == x
  {
  }
}
