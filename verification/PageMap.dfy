/** `map` as a function on trees, the entries it writes, and that it keeps trees well formed. */
module PageMap {
  import opened Arith
  import opened PageArith
  import opened PageTree

  /** Arguments of `map` after the virtual address has lost its sign extension. */
  datatype Request = Request(pa: nat, va: nat, len: nat, flags: nat)

  /** What the asserts of `map` and its unchecked additions demand of a caller. */
  predicate Legal(levels: nat, r: Request)
    requires levels <= MAX_LEVELS
  {
    r.pa % PAGE == 0 && r.va % PAGE == 0 && r.len % PAGE == 0
    && r.pa < WORD && r.va < Size(levels) && 1 <= r.va + r.len < WORD && r.flags < WORD
  }

  lemma LegalSum(levels: nat, r: Request)
    requires levels <= MAX_LEVELS && Legal(levels, r)
    ensures 1 <= r.va + r.len < WORD
  {
  }

  // ---- the window of slots visited at each level ----

  function Start(l: nat, r: Request): (i: nat)
    requires l < MAX_LEVELS
    ensures i < ENTRY_COUNT
  {
    Vpn(r.va, l)
  }

  function End(l: nat, r: Request): (i: nat)
    requires l < MAX_LEVELS && 1 <= r.va + r.len
    ensures i < ENTRY_COUNT && Start(l, r) <= i
  {
    var last := Vpn(r.va + r.len - (if l == 0 then 0 else 1), l);
    if last < Start(l, r) then ENTRY_COUNT - 1 else last
  }

  /** `physical_addr.wrapping_sub(virtual_addr) >> 2`. */
  function Offset(r: Request): nat
  {
    ((r.pa - r.va) % WORD) / 4
  }

  /** Whether a leaf in slot `i` has to be split before anything is written below it. */
  predicate NeedsSplit(l: nat, r: Request, i: nat)
    requires l < MAX_LEVELS && 1 <= r.va + r.len
  {
    var shift := (Offset(r) * 4) % WORD;
    var end := (r.va + r.len) % WORD;
    || (i == Start(l, r) && (r.va % Size(l) != 0 || ((r.va + shift) % WORD) % Size(l) != 0))
    || (i == End(l, r) && (end % Size(l) != 0 || ((end + shift) % WORD) % Size(l) != 0))
  }

  /** The entry written for the slot that starts at virtual address `a`. */
  function Pte(a: nat, r: Request): nat
  {
    ((Or(a / 4, r.flags) + Offset(r)) % WORD) % PTE_LIMIT
  }

  // ---- map_internal ----

  function MapTable(l: nat, kids: seq<Tree>, cur: nat, r: Request): (out: seq<Tree>)
    requires l < MAX_LEVELS && 1 <= r.va + r.len && Shaped(l + 1, Table(kids))
    ensures |out| == ENTRY_COUNT
    decreases l, 1
  {
    seq(ENTRY_COUNT, i requires 0 <= i < ENTRY_COUNT =>
      if Start(l, r) <= i <= End(l, r) then MapSlot(l, kids[i], i, cur + i * Size(l), r) else kids[i])
  }

  function Prepared(l: nat, t: Tree, i: nat, r: Request): (p: Tree)
    requires 0 < l < MAX_LEVELS && 1 <= r.va + r.len && Shaped(l, t)
    ensures Shaped(l, p)
  {
    if t.Leaf? && NeedsSplit(l, r, i) then SplitLeaf(t.pte, l) else t
  }

  function MapSlot(l: nat, t: Tree, i: nat, a: nat, r: Request): Tree
    requires l < MAX_LEVELS && 1 <= r.va + r.len && Shaped(l, t)
    decreases l, 0
  {
    if l == 0 then
      Leaf(Pte(a, r))
    else
      match Prepared(l, t, i, r)
      case Leaf(_) => Leaf(Pte(a, r))
      case Table(kids) => Table(MapTable(l - 1, kids, a, r))
  }

  function MapRoot(levels: nat, t: Tree, r: Request): (u: Tree)
    requires 0 < levels <= MAX_LEVELS && 1 <= r.va + r.len && t.Table? && Shaped(levels, t)
  {
    Table(MapTable(levels - 1, t.kids, 0, r))
  }

  // ---- when the written leaves are right ----

  /** A usable set of flags: valid, readable or executable, eight bits. */
  predicate GoodFlags(f: nat)
  {
    f < 256 && IsValid(f) && PermOk(f)
  }

  /** Where slots strictly inside the window are written without an alignment check, the
      two addresses agree modulo the slot size. */
  predicate Congruent(l: nat, r: Request)
    requires l < MAX_LEVELS && 1 <= r.va + r.len
  {
    l > 0 && End(l, r) - Start(l, r) >= 2 ==> (r.pa - r.va) % Size(l) == 0
  }

  /** The same at level `l` and everywhere below. */
  predicate CongruentTo(l: nat, r: Request)
    requires l < MAX_LEVELS && 1 <= r.va + r.len
  {
    Congruent(l, r) && (l > 0 ==> CongruentTo(l - 1, r))
  }

  predicate Sound(levels: nat, r: Request)
    requires 0 < levels <= MAX_LEVELS
  {
    Legal(levels, r) && GoodFlags(r.flags) && CongruentTo(levels - 1, r)
  }

  // ---- shape and well-formedness are kept ----

  lemma {:induction false} MapShaped(l: nat, kids: seq<Tree>, cur: nat, r: Request)
    requires l < MAX_LEVELS && 1 <= r.va + r.len && Shaped(l + 1, Table(kids))
    ensures Shaped(l + 1, Table(MapTable(l, kids, cur, r)))
    decreases l
  {
    forall i | 0 <= i < ENTRY_COUNT
      ensures Shaped(l, MapTable(l, kids, cur, r)[i])
    {
      if l > 0 && Start(l, r) <= i <= End(l, r) {
        var p := Prepared(l, kids[i], i, r);
        if p.Table? {
          MapShaped(l - 1, p.kids, cur + i * Size(l), r);
        }
      }
    }
  }

  // ---- arithmetic of one written entry ----

  lemma ShiftIsDifference(r: Request)
    requires r.pa % PAGE == 0 && r.va % PAGE == 0 && r.pa < WORD && r.va < WORD
    ensures (Offset(r) * 4) % WORD == (r.pa - r.va) % WORD
    ensures Offset(r) % 1024 == 0
    ensures (r.va + (Offset(r) * 4) % WORD) % WORD == r.pa
  {
    var x := r.pa - r.va;
    var y := if x >= 0 then x else x + WORD;
    DivUnique(x, WORD, if x >= 0 then 0 else -1, y);
    DiffMultiple(r.pa, r.va, PAGE);
    WordIsPages();
    ModAdd(x, WORD, PAGE);
    WholePages(y);
    DivUnique(y, WORD, 0, y);
    DivUnique(r.va + y, WORD, if x >= 0 then 0 else 1, r.pa);
  }

  lemma WordIsPages()
    ensures WORD % PAGE == 0
  {
  }

  lemma WholePages(y: nat)
    requires y % PAGE == 0
    ensures y / 4 * 4 == y && (y / 4) % 1024 == 0
  {
    var k := y / PAGE;
    DivUnique(y, 4, k * 1024, 0);
    DivUnique(k * 1024, 1024, k, 0);
  }

  /** A written entry holds the shifted address, truncated to 56 bits, and the flags. */
  lemma PteMeaning(a: nat, r: Request)
    requires a % PAGE == 0 && a < WORD && r.pa % PAGE == 0 && r.va % PAGE == 0 && r.pa < WORD && r.va < WORD
    requires r.flags < 256
    ensures Phys(Pte(a, r)) == (a + r.pa - r.va) % PHYS
    ensures Pte(a, r) % 256 == r.flags && Pte(a, r) < PTE_LIMIT
    ensures IsValid(Pte(a, r)) <==> IsValid(r.flags)
    ensures PermOk(Pte(a, r)) <==> PermOk(r.flags)
  {
    hide Offset, Pte, Phys, IsValid, IsRead, IsWrite, IsExecute;
    ShiftIsDifference(r);
    var k, o := a / 4096, Offset(r) / 1024;
    assert a == k * 4096 && Offset(r) == o * 1024;
    PteValue(a, r, k, o);
    AddPages(r.flags, (k + o) % 0x1000_0000_0000);
    FlagsHaveNoPage(r.flags);
    LiftModulus(a, r, k + o);
  }

  /** Flags that do not spell a table pointer. */
  predicate LeafFlags(f: nat)
  {
    IsValid(f) ==> IsRead(f) || IsExecute(f)
  }

  /** A written entry has the flag bits of the request, whatever the rest of its flags. */
  lemma PteFlags(a: nat, r: Request)
    requires a % PAGE == 0 && r.pa % PAGE == 0 && r.va % PAGE == 0 && r.pa < WORD && r.va < WORD
    ensures Pte(a, r) < PTE_LIMIT && Pte(a, r) % 1024 == r.flags % 1024
    ensures IsValid(Pte(a, r)) <==> IsValid(r.flags)
    ensures IsRead(Pte(a, r)) <==> IsRead(r.flags)
    ensures IsExecute(Pte(a, r)) <==> IsExecute(r.flags)
  {
    ShiftIsDifference(r);
    WholePages(a);
    assert Pow2(10) == 1024 by {
      assert Pow2(5) == 32;
    }
    OrLow(a / 4, r.flags, 10);
    LowTen(Or(a / 4, r.flags), Offset(r));
    hide Offset, Or;
    LowBits(Pte(a, r));
    LowBits(r.flags);
    hide IsValid, IsRead, IsExecute, IsWrite;
  }

  lemma LowTen(x: nat, o: nat)
    requires o % 1024 == 0
    ensures (((x + o) % WORD) % PTE_LIMIT) % 1024 == x % 1024
  {
    ModAdd(x, o, 1024);
    assert WORD == 1024 * (WORD / 1024) && PTE_LIMIT == 1024 * (PTE_LIMIT / 1024);
    ModMod(x + o, 1024, WORD / 1024);
    ModMod((x + o) % WORD, 1024, PTE_LIMIT / 1024);
  }

  /** A written entry is a leaf exactly if the flags do not spell a table pointer, or its
      address field is zero. */
  lemma WrittenIsLeafIff(a: nat, r: Request)
    requires a % PAGE == 0 && r.pa % PAGE == 0 && r.va % PAGE == 0 && r.pa < WORD && r.va < WORD
    ensures IsLeaf(Pte(a, r)) <==> LeafFlags(r.flags) || Pte(a, r) / 256 == 0
  {
    PteFlags(a, r);
    hide Pte, IsValid, IsRead, IsExecute;
  }

  lemma FlagsHaveNoPage(f: nat)
    requires f < 256
    ensures Phys(f) == 0
  {
  }

  lemma PteValue(a: nat, r: Request, k: nat, o: nat)
    requires a == k * 4096 && Offset(r) == o * 1024 && r.flags < 256
    ensures Pte(a, r) == r.flags + ((k + o) % 0x1000_0000_0000) * 1024 < PTE_LIMIT
  {
    hide Offset;
    assert a / 4 == k * 1024 && (k * 1024) % 256 == 0;
    OrFlags(k * 1024, r.flags);
    TruncatePte(k + o, r.flags);
  }

  lemma TruncatePte(n: nat, f: nat)
    requires f < 256
    ensures ((n * 1024 + f) % WORD) % PTE_LIMIT == (n % 0x1000_0000_0000) * 1024 + f
  {
    var x := n * 1024 + f;
    var m := n % 0x1000_0000_0000;
    DivUnique(x, PTE_LIMIT, n / 0x1000_0000_0000, m * 1024 + f);
    ModMod(x, PTE_LIMIT, 1024);
  }

  lemma LiftModulus(a: nat, r: Request, n: nat)
    requires a % PAGE == 0 && r.pa % PAGE == 0 && r.va % PAGE == 0 && r.pa < WORD && r.va < WORD
    requires n == a / 4096 + Offset(r) / 1024
    ensures (n % 0x1000_0000_0000) * 4096 == (a + r.pa - r.va) % PHYS
  {
    ShiftIsDifference(r);
    var d := (r.pa - r.va) % WORD;
    assert n * 4096 == a + d;
    DivUnique(n * 4096, PHYS, n / 0x1000_0000_0000, (n % 0x1000_0000_0000) * 4096);
    var x := a + r.pa - r.va;
    assert a + d == x || a + d == x + WORD;
    ModAdd(x, WORD, PHYS);
  }

  /** Any remainder modulo the word or the physical space keeps remainders modulo a page size. */
  lemma PageModulus(x: int, l: nat)
    requires l < MAX_LEVELS
    ensures (x % WORD) % Size(l) == x % Size(l)
    ensures (x % PHYS) % Size(l) == x % Size(l)
  {
    assert WORD == Size(l) * (WORD / Size(l)) && PHYS == Size(l) * (PHYS / Size(l));
    ModMod(x, Size(l), WORD / Size(l));
    ModMod(x, Size(l), PHYS / Size(l));
  }

  /** A slot that is written without splitting lets the two addresses agree at its size. */
  lemma UnsplitAligned(l: nat, i: nat, r: Request)
    requires 0 < l < MAX_LEVELS && Legal(MAX_LEVELS, r) && Congruent(l, r)
    requires Start(l, r) <= i <= End(l, r) && !NeedsSplit(l, r, i)
    ensures (r.pa - r.va) % Size(l) == 0
  {
    ShiftIsDifference(r);
    if i == Start(l, r) {
      DiffMultiple(r.pa, r.va, Size(l));
    } else if i == End(l, r) {
      EndAligned(l, r.va + r.len, r.pa - r.va);
    }
  }

  lemma EndAligned(l: nat, end: nat, d: int)
    requires l < MAX_LEVELS && end < WORD
    requires (end % WORD) % Size(l) == 0 && (((end % WORD) + d % WORD) % WORD) % Size(l) == 0
    ensures d % Size(l) == 0
  {
    hide Size;
    DivUnique(end, WORD, 0, end);
    PageModulus(end + d % WORD, l);
    DiffMultiple(end + d % WORD, end, Size(l));
    PageModulus(d, l);
  }

  /** The entry written in a slot at address `a` is well formed. */
  lemma PteGood(l: nat, a: nat, r: Request)
    requires l < MAX_LEVELS && Legal(MAX_LEVELS, r) && GoodFlags(r.flags)
    requires a < WORD && a % Size(l) == 0 && (r.pa - r.va) % Size(l) == 0
    ensures GoodLeaf(l, Pte(a, r))
  {
    PageAligned(a, l);
    PteMeaning(a, r);
    PageModulus(a + r.pa - r.va, l);
    ModAdd(r.pa - r.va, a, Size(l));
  }

  lemma PageAligned(a: int, l: nat)
    requires l <= MAX_LEVELS && a % Size(l) == 0
    ensures a % PAGE == 0
  {
    assert Size(l) == PAGE * (Size(l) / PAGE);
    ModMod(a, PAGE, Size(l) / PAGE);
  }

  lemma SplitWF(v: nat, l: nat)
    requires 0 < l < MAX_LEVELS && GoodLeaf(l, v)
    ensures WF(l, SplitLeaf(v, l))
  {
    var t := SplitLeaf(v, l);
    assert forall j :: 0 <= j < ENTRY_COUNT ==> t.kids[j] == Leaf(SplitPte(v, l, j));
    hide *;
    forall j | 0 <= j < ENTRY_COUNT
      ensures GoodLeaf(l - 1, SplitPte(v, l, j))
    {
      SplitGood(v, l, j);
    }
    LeavesWF(l, t);
  }

  lemma LeavesWF(l: nat, t: Tree)
    requires 0 < l <= MAX_LEVELS && t.Table? && |t.kids| == ENTRY_COUNT
    requires forall j :: 0 <= j < ENTRY_COUNT ==> t.kids[j].Leaf? && GoodLeaf(l - 1, t.kids[j].pte)
    ensures WF(l, t)
  {
    hide GoodLeaf;
  }

  lemma SplitGood(v: nat, l: nat, j: nat)
    requires 0 < l < MAX_LEVELS && GoodLeaf(l, v) && j < ENTRY_COUNT
    ensures GoodLeaf(l - 1, SplitPte(v, l, j))
  {
    hide Size, Phys, SplitPte, PermOk, IsValid, PTE_LIMIT, WORD, PHYS;
    SplitEntry(v, l, j);
    SizeStep(l);
    var s := Size(l - 1);
    ModOfMultiple(j, s);
    Trivial(s);
    ModMod(Phys(v), s, ENTRY_COUNT);
    ModAdd(Phys(v), j * s, s);
    SplitBound(v, l, j);
  }

  lemma SplitBound(v: nat, l: nat, j: nat)
    requires 0 < l < MAX_LEVELS && j < ENTRY_COUNT && v < PTE_LIMIT && Phys(v) % Size(l) == 0
    ensures SplitPte(v, l, j) < PTE_LIMIT
  {
    PhysBound(v);
    PhysIsBlocks(l);
    hide Size, Phys, SplitPte;
    SplitEntry(v, l, j);
    SizeStep(l);
    MulSign(ENTRY_COUNT - j, Size(l - 1));
    Distribute(ENTRY_COUNT, j, Size(l - 1));
    RoundUp(Phys(v), PHYS, Size(l));
    PhysBound(SplitPte(v, l, j));
  }

  lemma PhysBound(v: nat)
    ensures v < PTE_LIMIT <==> Phys(v) < PHYS
  {
  }

  lemma PhysIsBlocks(l: nat)
    requires l < MAX_LEVELS
    ensures PHYS % Size(l) == 0 && WORD % Size(l) == 0
  {
  }

  /** The start of slot `i` of a table that starts at `cur`. */
  lemma SlotBase(l: nat, cur: nat, i: nat)
    requires l < MAX_LEVELS && cur % Size(l + 1) == 0 && i < ENTRY_COUNT
    ensures (cur + i * Size(l)) % Size(l) == 0
    ensures i * Size(l) <= Size(l + 1) - Size(l)
  {
    SizeStep(l + 1);
    ModMod(cur, Size(l), ENTRY_COUNT);
    ModOfMultiple(i, Size(l));
    ModAdd(cur, i * Size(l), Size(l));
    MulSign(ENTRY_COUNT - i, Size(l));
    Distribute(ENTRY_COUNT, i, Size(l));
  }

  lemma PageMultiple(r: Request)
    requires r.pa % PAGE == 0 && r.va % PAGE == 0
    ensures (r.pa - r.va) % Size(0) == 0
  {
    DiffMultiple(r.pa, r.va, PAGE);
  }

  /** `map` keeps every table well formed. */
  lemma {:induction false} MapWF(l: nat, kids: seq<Tree>, cur: nat, r: Request)
    requires l < MAX_LEVELS && Legal(MAX_LEVELS, r) && GoodFlags(r.flags)
    requires CongruentTo(l, r)
    requires cur % Size(l + 1) == 0 && cur + Size(l + 1) <= Size(MAX_LEVELS)
    requires WF(l + 1, Table(kids)) && Shaped(l + 1, Table(kids))
    ensures WF(l + 1, Table(MapTable(l, kids, cur, r)))
    decreases l
  {
    var out := MapTable(l, kids, cur, r);
    forall i | 0 <= i < ENTRY_COUNT
      ensures WF(l, out[i])
    {
      if Start(l, r) <= i <= End(l, r) {
        MapSlotWF(l, kids[i], cur, i, r);
      }
    }
  }

  lemma {:induction false} MapSlotWF(l: nat, t: Tree, cur: nat, i: nat, r: Request)
    requires l < MAX_LEVELS && Legal(MAX_LEVELS, r) && GoodFlags(r.flags)
    requires CongruentTo(l, r)
    requires cur % Size(l + 1) == 0 && cur + Size(l + 1) <= Size(MAX_LEVELS)
    requires Start(l, r) <= i <= End(l, r) && WF(l, t) && Shaped(l, t)
    ensures WF(l, MapSlot(l, t, i, cur + i * Size(l), r))
    decreases l, 0
  {
    hide Vpn, Start, End, Congruent, NeedsSplit, Pte;
    var a := cur + i * Size(l);
    SlotBase(l, cur, i);
    if l == 0 {
      PageMultiple(r);
      PteGood(0, a, r);
    } else {
      var p := Prepared(l, t, i, r);
      if t.Leaf? && NeedsSplit(l, r, i) {
        SplitWF(t.pte, l);
      }
      if p.Table? {
        MapWF(l - 1, p.kids, a, r);
      } else {
        UnsplitAligned(l, i, r);
        PteGood(l, a, r);
      }
    }
  }
}
